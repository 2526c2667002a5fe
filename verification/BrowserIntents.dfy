/** The sequence-numbered browser commands and what recording one does to the
  per-label intents and the scope barriers. */
module BrowserIntents {
  import opened Wrappers
  import opened BrowserLabels

  datatype Rect = Rect(x: real, y: real, w: real, h: real)
  datatype Navigation = Navigation(sequence: nat, url: string, readOnlyUrl: Option<string>)
  datatype Bounds = Bounds(sequence: nat, rect: Rect)
  datatype Visibility = Visible | Hidden | Closed
  datatype VisibilityIntent = VisibilityIntent(sequence: nat, value: Visibility)

  datatype LabelIntent = LabelIntent(
    latest: nat,
    navigation: Option<Navigation>,
    bounds: Option<Bounds>,
    visibility: Option<VisibilityIntent>,
    reload: Option<nat>,
    appliedNavigation: Option<nat>,
    appliedReload: Option<nat>)

  const NO_RECT: Rect := Rect(0.0, 0.0, 0.0, 0.0)

  const DEFAULT_INTENT: LabelIntent := LabelIntent(0, None, None, None, None, None, None)

  datatype ScopeAction = Hide | Close
  datatype ScopeBarrier = ScopeBarrier(sequence: nat, action: ScopeAction, except: Option<string>)

  datatype Intents = Intents(labels: map<string, LabelIntent>, barriers: map<string, ScopeBarrier>)

  const NO_INTENTS: Intents := Intents(map[], map[])

  /** One command as it is recorded under the lifecycle lock. `existing` are
      the labels a scope command collected before. */
  datatype Command =
    | NavigateTo(name: string, sequence: nat, url: string, readOnlyUrl: Option<string>, rect: Rect)
    | SetBounds(name: string, sequence: nat, rect: Rect)
    | HideLabel(name: string, sequence: nat)
    | CloseLabel(name: string, sequence: nat)
    | Reload(name: string, sequence: nat)
    | Scope(prefix: string, sequence: nat, action: ScopeAction, except: Option<string>, existing: seq<string>)

  function VisibilityOf(action: ScopeAction): Visibility {
    match action
    case Hide => Hidden
    case Close => Closed
  }

  // ---------------------------------------------------------------------
  // Deciding
  // ---------------------------------------------------------------------

  predicate InScope(name: string, prefix: string, except: Option<string>) {
    StartsWith(name, prefix) && except != Some(name)
  }

  predicate Covers(i: Intents, prefix: string, name: string) {
    prefix in i.barriers && InScope(name, prefix, i.barriers[prefix].except)
  }

  /** The outcome of looking up the newest barrier over a label. Of several
      with the same sequence, which one is found is not determined. */
  predicate IsLatestBarrier(i: Intents, name: string, found: Option<ScopeBarrier>) {
    match found
    case None => forall p | p in i.barriers :: !Covers(i, p, name)
    case Some(b) =>
      && (exists p | p in i.barriers :: Covers(i, p, name) && i.barriers[p] == b)
      && (forall p | p in i.barriers :: Covers(i, p, name) ==> i.barriers[p].sequence <= b.sequence)
  }

  /** The keys of a map in some order, which is the same for every look at an
      unchanged map. */
  type KeyOrder = f: map<string, ScopeBarrier> -> seq<string> | forall m :: ListsKeys(f(m), m)
    ghost witness (m: map<string, ScopeBarrier>) => SomeOrder(m.Keys)

  ghost predicate ListsKeys(keys: seq<string>, m: map<string, ScopeBarrier>) {
    forall p :: p in keys <==> p in m
  }

  ghost function SomeOrder(rest: set<string>): (keys: seq<string>)
    ensures forall p :: p in keys <==> p in rest
  {
    if rest == {} then [] else var p :| p in rest; [p] + SomeOrder(rest - {p})
  }

  /** The newest barrier over a label, the last one in the order of the keys if
      several are equally new. */
  function NewestOf(keys: seq<string>, barriers: map<string, ScopeBarrier>, name: string): Option<ScopeBarrier> {
    if keys == [] then None
    else
      var before := NewestOf(keys[..|keys| - 1], barriers, name);
      var p := keys[|keys| - 1];
      if p in barriers && InScope(name, p, barriers[p].except)
         && (before == None || before.value.sequence <= barriers[p].sequence)
      then Some(barriers[p]) else before
  }

  lemma {:induction false} NewestOfCovers(keys: seq<string>, i: Intents, name: string)
    ensures match NewestOf(keys, i.barriers, name)
            case None => forall p | p in keys :: !Covers(i, p, name)
            case Some(b) =>
              && (exists p | p in keys :: Covers(i, p, name) && i.barriers[p] == b)
              && (forall p | p in keys :: Covers(i, p, name) ==> i.barriers[p].sequence <= b.sequence)
  {
    if keys != [] {
      var before := keys[..|keys| - 1];
      assert keys == before + [keys[|keys| - 1]];
      NewestOfCovers(before, i, name);
    }
  }

  /** Of equally new barriers over the label it is the last in the order. */
  lemma {:induction false} NewestIsLastOfEquals(keys: seq<string>, i: Intents, name: string)
    ensures NewestOf(keys, i.barriers, name).Some? ==>
              exists k | 0 <= k < |keys| ::
                && Covers(i, keys[k], name) && NewestOf(keys, i.barriers, name) == Some(i.barriers[keys[k]])
                && forall j | k < j < |keys| && Covers(i, keys[j], name) ::
                     i.barriers[keys[j]].sequence < i.barriers[keys[k]].sequence
  {
    if keys != [] {
      var before := keys[..|keys| - 1];
      NewestIsLastOfEquals(before, i, name);
      NewestOfCovers(before, i, name);
      var last := |keys| - 1;
      var newest := NewestOf(keys, i.barriers, name);
      if newest.Some? && newest == NewestOf(before, i.barriers, name)
         && !(Covers(i, keys[last], name) && newest.value.sequence <= i.barriers[keys[last]].sequence) {
        var k :| 0 <= k < |before| && Covers(i, before[k], name) && newest == Some(i.barriers[before[k]])
                 && forall j | k < j < |before| && Covers(i, before[j], name) ::
                      i.barriers[before[j]].sequence < i.barriers[before[k]].sequence;
        assert Covers(i, keys[k], name);
        assert forall j | 0 <= j < last :: keys[j] == before[j];
      } else if newest.Some? {
        assert Covers(i, keys[last], name);
      }
    }
  }

  lemma NewestOfIsLatest(order: KeyOrder, i: Intents, name: string)
    ensures IsLatestBarrier(i, name, NewestOf(order(i.barriers), i.barriers, name))
  {
    assert ListsKeys(order(i.barriers), i.barriers);
    NewestOfCovers(order(i.barriers), i, name);
  }

  predicate SequenceIsCurrent(i: Intents, name: string, sequence: nat) {
    && (forall p | p in i.barriers :: Covers(i, p, name) ==> i.barriers[p].sequence <= sequence)
    && (name in i.labels ==> i.labels[name].latest <= sequence)
  }

  datatype Effective = Effective(
    revision: nat,
    navigation: Option<Navigation>,
    bounds: Option<Bounds>,
    visibility: Visibility,
    reload: Option<nat>,
    appliedNavigation: Option<nat>,
    appliedReload: Option<nat>)

  function Combine(l: LabelIntent, barrier: Option<ScopeBarrier>): Effective {
    var own := l.visibility.GetOr(VisibilityIntent(0, Hidden));
    var revision :=
      if barrier.Some? && barrier.value.sequence > l.latest then barrier.value.sequence else l.latest;
    var visibility :=
      if barrier.Some? && barrier.value.sequence > own.sequence then VisibilityOf(barrier.value.action)
      else own.value;
    Effective(revision, l.navigation, l.bounds, visibility, l.reload, l.appliedNavigation, l.appliedReload)
  }

  /** What the label is asked to be now; unknown labels are asked nothing. */
  ghost predicate IsEffective(i: Intents, name: string, e: Option<Effective>) {
    if name in i.labels
    then exists b :: IsLatestBarrier(i, name, b) && e == Some(Combine(i.labels[name], b))
    else e == None
  }

  /** The same, as one look finds it. */
  function EffectiveIn(order: KeyOrder, i: Intents, name: string): Option<Effective> {
    if name in i.labels then Some(Combine(i.labels[name], NewestOf(order(i.barriers), i.barriers, name))) else None
  }

  // ---------------------------------------------------------------------
  // Recording
  // ---------------------------------------------------------------------

  function IntentOf(i: Intents, name: string): LabelIntent {
    if name in i.labels then i.labels[name] else DEFAULT_INTENT
  }

  predicate IsClosed(l: LabelIntent) {
    l.visibility.Some? && l.visibility.value.value == Closed
  }

  function ClearedForClose(l: LabelIntent): LabelIntent {
    l.(navigation := None, reload := None, appliedNavigation := None, appliedReload := None)
  }

  function Navigated(l: LabelIntent, sequence: nat, url: string, readOnlyUrl: Option<string>, rect: Rect): LabelIntent {
    l.(latest := sequence,
       navigation := Some(Navigation(sequence, url, readOnlyUrl)),
       bounds := Some(Bounds(sequence, rect)),
       visibility := Some(VisibilityIntent(sequence, Visible)))
  }

  function Bounded(l: LabelIntent, sequence: nat, rect: Rect): LabelIntent {
    var moved := l.(latest := sequence, bounds := Some(Bounds(sequence, rect)));
    if IsClosed(l) then moved else moved.(visibility := Some(VisibilityIntent(sequence, Visible)))
  }

  function Shown(l: LabelIntent, sequence: nat, value: Visibility): LabelIntent {
    var l1 := l.(latest := sequence);
    var l2 :=
      if !IsClosed(l) || value == Closed then l1.(visibility := Some(VisibilityIntent(sequence, value))) else l1;
    if value == Closed then ClearedForClose(l2) else l2
  }

  function Reloaded(l: LabelIntent, sequence: nat): LabelIntent {
    var l1 := l.(latest := sequence);
    if IsClosed(l) then l1 else l1.(reload := Some(sequence))
  }

  function Scoped(l: LabelIntent, sequence: nat, action: ScopeAction): LabelIntent {
    if sequence < l.latest then l
    else
      var l1 := l.(latest := sequence, visibility := Some(VisibilityIntent(sequence, VisibilityOf(action))));
      if action == Close then ClearedForClose(l1) else l1
  }

  /** The labels among `existing` that a scope command applies to. */
  function Targets(existing: seq<string>, prefix: string, except: Option<string>): set<string> {
    set l | l in existing && InScope(l, prefix, except)
  }

  function ScopedLabels(labels: map<string, LabelIntent>, targets: set<string>, sequence: nat, action: ScopeAction)
    : map<string, LabelIntent>
  {
    map l | l in labels.Keys + targets ::
      if l in targets then Scoped(if l in labels then labels[l] else DEFAULT_INTENT, sequence, action)
      else labels[l]
  }

  predicate BarrierAdvances(i: Intents, prefix: string, sequence: nat) {
    prefix in i.barriers ==> i.barriers[prefix].sequence <= sequence
  }

  /** Whether recording the command changes anything. */
  predicate Recorded(i: Intents, c: Command) {
    if c.Scope? then BarrierAdvances(i, c.prefix, c.sequence) else SequenceIsCurrent(i, c.name, c.sequence)
  }

  /** What the recording functions return: whether to reconcile. */
  predicate Accepted(i: Intents, c: Command) {
    Recorded(i, c) && ((c.SetBounds? || c.Reload?) ==> !IsClosed(IntentOf(i, c.name)))
  }

  function Updated(l: LabelIntent, c: Command): LabelIntent
    requires !c.Scope?
  {
    match c
    case NavigateTo(_, sequence, url, readOnlyUrl, rect) => Navigated(l, sequence, url, readOnlyUrl, rect)
    case SetBounds(_, sequence, rect) => Bounded(l, sequence, rect)
    case HideLabel(_, sequence) => Shown(l, sequence, Hidden)
    case CloseLabel(_, sequence) => Shown(l, sequence, Closed)
    case Reload(_, sequence) => Reloaded(l, sequence)
  }

  function Apply(i: Intents, c: Command): Intents {
    if !Recorded(i, c) then i
    else if c.Scope? then
      Intents(ScopedLabels(i.labels, Targets(c.existing, c.prefix, c.except), c.sequence, c.action),
              i.barriers[c.prefix := ScopeBarrier(c.sequence, c.action, c.except)])
    else
      i.(labels := i.labels[c.name := Updated(IntentOf(i, c.name), c)])
  }

  function Run(i: Intents, cs: seq<Command>): Intents {
    if cs == [] then i else Apply(Run(i, cs[..|cs| - 1]), cs[|cs| - 1])
  }

  /** A recorded bounds command asks for a pass exactly if it shows the label, a
      recorded reload exactly if it is kept; a closed label stays as it is. The
      others ask for one whenever they are recorded. */
  lemma AsksForAPassExactly(i: Intents, c: Command)
    requires Recorded(i, c)
    ensures c.SetBounds? ==>
              (Accepted(i, c) <==> Apply(i, c).labels[c.name].visibility != IntentOf(i, c.name).visibility
                                   || !IsClosed(Apply(i, c).labels[c.name]))
    ensures c.Reload? && !Accepted(i, c) ==>
              IsClosed(Apply(i, c).labels[c.name]) && Apply(i, c).labels[c.name].reload == IntentOf(i, c.name).reload
    ensures c.Reload? && Accepted(i, c) ==> Apply(i, c).labels[c.name].reload == Some(c.sequence)
    ensures !c.SetBounds? && !c.Reload? ==> Accepted(i, c)
  {
    hide SequenceIsCurrent;
  }
}
