/**
 Disposal of a container tree as a step system.

 Container 0 is the root; every other container is a request scope.  An instance enters one cache once.  An override
 hands the entries it drops to stale-disposal tasks; dispose() snapshots the entries, waits for the stale tasks, calls
 onDestroy in reverse entry order and then clears the caches.  The awaits between these actions are the steps, so an
 override may run while the disposal of a scope is under way.  Every call of onDestroy settles in a step of its own,
 normally or by throwing; a throw is collected and neither stops the pass nor keeps the caches from being cleared.
 */
module DiDisposal {
  import opened Options

  type ScopeId = nat
  type Item = nat

  datatype Phase =
    | Live
    | AwaitingScopes
    | AwaitingStale(entries: seq<Item>)
    | Collecting(entries: seq<Item>)
    | Destroying(entries: seq<Item>, left: nat, busy: bool, stale: seq<Item>, thrown: seq<Item>)
    | Disposed(entries: seq<Item>, stale: seq<Item>, thrown: seq<Item>)

  /**
   The two caches in insertion order, whether the root tracks the scope, the stale-disposal tasks, and the errors they
   threw that no disposal has taken yet.  An error is named by the instance whose onDestroy threw it.
   */
  datatype ScopeState = ScopeState(
    parent: Option<ScopeId>,
    cache: seq<Item>,
    multiCache: seq<Item>,
    tracked: bool,
    waiting: set<Item>,
    running: set<Item>,
    staleErrors: seq<Item>,
    phase: Phase)

  /** One call of onDestroy, by the disposal pass of a container or by a stale-disposal task. */
  datatype Call = Call(item: Item, scope: ScopeId, inPass: bool)

  /**
   `home` records the container whose cache an instance entered, `log` the calls of onDestroy, `failed` those that
   threw.  `hits` are the instances an override dropped from a scope whose disposal was under way.  The root's disposal
   waits for the `awaited` scopes and has `gathered` the errors with which theirs ended.
   */
  datatype World = World(
    scopes: map<ScopeId, ScopeState>,
    home: map<Item, ScopeId>,
    log: seq<Call>,
    failed: seq<Call>,
    hits: set<Item>,
    awaited: set<ScopeId>,
    gathered: map<ScopeId, seq<Item>>)

  const Initial := World(map[0 := ScopeState(None, [], [], false, {}, {}, [], Live)], map[], [], [], {}, {}, map[])

  datatype Step =
    | CreateScope(scope: ScopeId, parent: ScopeId)
    | Enter(scope: ScopeId, item: Item, multi: bool)
    | Override(scope: ScopeId, drops: set<Item>)
    | BeginDispose(scope: ScopeId)
    | ScopesSettled
    | StaleStart(scope: ScopeId, item: Item)
    | StaleSettle(scope: ScopeId, item: Item, threw: bool)
    | StaleDrained(scope: ScopeId)
    | Collected(scope: ScopeId)
    | DestroyNext(scope: ScopeId)
    | DestroySettled(scope: ScopeId, threw: bool)
    | Finish(scope: ScopeId)

  // ---------- Entries and disposables ----------

  function Entries(st: ScopeState): seq<Item> { st.cache + st.multiCache }

  /** The disposable instances in entry order, each once. */
  function Collect(entries: seq<Item>, seen: set<Item>, disposable: Item -> bool): seq<Item> {
    if entries == [] then []
    else if disposable(entries[0]) && entries[0] !in seen then
      [entries[0]] + Collect(entries[1..], seen + {entries[0]}, disposable)
    else Collect(entries[1..], seen, disposable)
  }

  function Disposables(entries: seq<Item>, disposable: Item -> bool): seq<Item> {
    Collect(entries, {}, disposable)
  }

  function Without(entries: seq<Item>, drops: set<Item>): seq<Item> {
    if entries == [] then []
    else (if entries[0] in drops then [] else [entries[0]]) + Without(entries[1..], drops)
  }

  function Reversed(s: seq<Item>): seq<Item> {
    if s == [] then [] else Reversed(s[1..]) + [s[0]]
  }

  // ---------- Steps ----------

  ghost predicate WellFormed(w: World) {
    0 in w.scopes && forall s <- w.scopes ::
      (w.scopes[s].parent.Some? <==> s != 0) &&
      (s != 0 ==> w.scopes[s].parent.value in w.scopes && w.scopes[s].parent.value < s)
  }

  /** The container and all its ancestors are not disposed. */
  ghost predicate Usable(w: World, s: ScopeId)
    requires WellFormed(w)
    decreases s
  {
    s in w.scopes && w.scopes[s].phase.Live? && (s != 0 ==> Usable(w, w.scopes[s].parent.value))
  }

  ghost predicate Below(w: World, x: ScopeId, s: ScopeId)
    requires WellFormed(w) && x in w.scopes
    decreases x
  {
    x == s || (x != 0 && Below(w, w.scopes[x].parent.value, s))
  }

  predicate InDisposal(phase: Phase) { phase.AwaitingStale? || phase.Collecting? || phase.Destroying? }

  ghost predicate Enabled(w: World, step: Step, disposable: Item -> bool)
    requires WellFormed(w)
  {
    match step
    case CreateScope(s, p) => s !in w.scopes && p < s && Usable(w, p)
    case Enter(s, i, _) => Usable(w, s) && i !in w.home
    case Override(s, _) => Usable(w, s)
    case BeginDispose(s) => s in w.scopes && w.scopes[s].phase.Live?
    case ScopesSettled => w.scopes[0].phase.AwaitingScopes? && forall x <- w.scopes :: x != 0 ==> !w.scopes[x].tracked
    case StaleStart(s, i) => s in w.scopes && i in w.scopes[s].waiting
    case StaleSettle(s, i, threw) => s in w.scopes && i in w.scopes[s].running && (threw ==> disposable(i))
    case StaleDrained(s) =>
      s in w.scopes && w.scopes[s].phase.AwaitingStale? && w.scopes[s].waiting == {} && w.scopes[s].running == {}
    case Collected(s) => s in w.scopes && w.scopes[s].phase.Collecting?
    case DestroyNext(s) =>
      s in w.scopes && w.scopes[s].phase.Destroying? && !w.scopes[s].phase.busy &&
      0 < w.scopes[s].phase.left <= |Disposables(w.scopes[s].phase.entries, disposable)|
    case DestroySettled(s, _) =>
      s in w.scopes && w.scopes[s].phase.Destroying? && w.scopes[s].phase.busy &&
      w.scopes[s].phase.left < |Disposables(w.scopes[s].phase.entries, disposable)|
    case Finish(s) =>
      s in w.scopes && w.scopes[s].phase.Destroying? && !w.scopes[s].phase.busy && w.scopes[s].phase.left == 0
  }

  function Drop(st: ScopeState, drops: set<Item>): ScopeState {
    st.(cache := Without(st.cache, drops), multiCache := Without(st.multiCache, drops),
        waiting := st.waiting + set i | i in drops && i in Entries(st))
  }

  function Begin(st: ScopeState): ScopeState {
    st.(phase := AwaitingStale(Entries(st)))
  }

  function StaleSettled(st: ScopeState, i: Item, threw: bool): ScopeState {
    st.(running := st.running - {i}, staleErrors := if threw then st.staleErrors + [i] else st.staleErrors)
  }

  /** The pass takes the stale errors over and starts behind the last disposable instance. */
  function BeginPass(st: ScopeState, disposable: Item -> bool): ScopeState
    requires st.phase.Collecting?
  {
    var e := st.phase.entries;
    st.(staleErrors := [], phase := Destroying(e, |Disposables(e, disposable)|, false, st.staleErrors, []))
  }

  /** The pass works backwards: the last instance whose onDestroy has not been called is next. */
  function NextItem(phase: Phase, disposable: Item -> bool): Item
    requires phase.Destroying? && 0 < phase.left <= |Disposables(phase.entries, disposable)|
  {
    Disposables(phase.entries, disposable)[phase.left - 1]
  }

  /** The instance whose onDestroy the pass awaits. */
  function CurrentItem(phase: Phase, disposable: Item -> bool): Item
    requires phase.Destroying? && phase.left < |Disposables(phase.entries, disposable)|
  {
    Disposables(phase.entries, disposable)[phase.left]
  }

  function CallBegun(st: ScopeState): ScopeState
    requires st.phase.Destroying? && st.phase.left > 0
  {
    st.(phase := st.phase.(left := st.phase.left - 1, busy := true))
  }

  function CallSettled(st: ScopeState, i: Item, threw: bool): ScopeState
    requires st.phase.Destroying?
  {
    st.(phase := st.phase.(busy := false, thrown := if threw then st.phase.thrown + [i] else st.phase.thrown))
  }

  function Finished(st: ScopeState): ScopeState
    requires st.phase.Destroying?
  {
    st.(cache := [], multiCache := [], tracked := false,
        phase := Disposed(st.phase.entries, st.phase.stale, st.phase.thrown))
  }

  function With(w: World, s: ScopeId, st: ScopeState, log: seq<Call>): World {
    w.(scopes := w.scopes[s := st], log := log)
  }

  function WithFailure(w: World, s: ScopeId, st: ScopeState, c: Call, threw: bool): World {
    With(w, s, st, w.log).(failed := if threw then w.failed + [c] else w.failed)
  }

  ghost function AfterOverride(w: World, s: ScopeId, drops: set<Item>): World
    requires WellFormed(w)
  {
    w.(scopes := map x | x in w.scopes :: if Below(w, x, s) then Drop(w.scopes[x], drops) else w.scopes[x],
       hits := w.hits + set i | i in drops && i in w.home && w.home[i] in w.scopes && Below(w, w.home[i], s)
                                && InDisposal(w.scopes[w.home[i]].phase) && i in Entries(w.scopes[w.home[i]]))
  }

  /** The root's disposal starts that of every tracked scope that is still live. */
  function AfterRootBegin(w: World): World {
    w.(scopes := map x | x in w.scopes ::
      if x == 0 then w.scopes[x].(phase := AwaitingScopes)
      else if w.scopes[x].tracked && w.scopes[x].phase.Live? then Begin(w.scopes[x]) else w.scopes[x],
      awaited := set x | x in w.scopes && x != 0 && w.scopes[x].tracked)
  }

  /** The errors with which the disposal of a container ends: those of its stale tasks, then those of its pass. */
  function Report(st: ScopeState): seq<Item>
    requires st.phase.Disposed?
  {
    st.phase.stale + st.phase.thrown
  }

  /** All scopes have settled: the root collects their errors and turns to its own entries. */
  function AfterScopesSettled(w: World): World
    requires 0 in w.scopes
  {
    With(w, 0, Begin(w.scopes[0]), w.log).(
      gathered := map x | x in w.awaited && x in w.scopes && w.scopes[x].phase.Disposed? :: Report(w.scopes[x]))
  }

  ghost function Next(w: World, step: Step, disposable: Item -> bool): World
    requires WellFormed(w) && Enabled(w, step, disposable)
  {
    match step
    case CreateScope(s, p) => w.(scopes := w.scopes[s := ScopeState(Some(p), [], [], false, {}, {}, [], Live)])
    case Enter(s, i, multi) =>
      var st := w.scopes[s];
      w.(home := w.home[i := s],
         scopes := w.scopes[s := st.(cache := if multi then st.cache else st.cache + [i],
                                     multiCache := if multi then st.multiCache + [i] else st.multiCache,
                                     tracked := s != 0)])
    case Override(s, drops) => AfterOverride(w, s, drops)
    case BeginDispose(s) => if s == 0 then AfterRootBegin(w) else With(w, s, Begin(w.scopes[s]), w.log)
    case ScopesSettled => AfterScopesSettled(w)
    case StaleStart(s, i) =>
      var st := w.scopes[s];
      With(w, s, st.(waiting := st.waiting - {i}, running := st.running + {i}),
           if disposable(i) then w.log + [Call(i, s, false)] else w.log)
    case StaleSettle(s, i, threw) => WithFailure(w, s, StaleSettled(w.scopes[s], i, threw), Call(i, s, false), threw)
    case StaleDrained(s) => With(w, s, w.scopes[s].(phase := Collecting(w.scopes[s].phase.entries)), w.log)
    case Collected(s) => With(w, s, BeginPass(w.scopes[s], disposable), w.log)
    case DestroyNext(s) =>
      With(w, s, CallBegun(w.scopes[s]), w.log + [Call(NextItem(w.scopes[s].phase, disposable), s, true)])
    case DestroySettled(s, threw) =>
      var i := CurrentItem(w.scopes[s].phase, disposable);
      WithFailure(w, s, CallSettled(w.scopes[s], i, threw), Call(i, s, true), threw)
    case Finish(s) => With(w, s, Finished(w.scopes[s]), w.log)
  }

  ghost predicate ParentsKept(w: World, w': World) {
    w'.scopes.Keys == w.scopes.Keys && forall s <- w.scopes :: w'.scopes[s].parent == w.scopes[s].parent
  }

  lemma OneParentKept(w: World, s: ScopeId, st: ScopeState)
    requires s in w.scopes && st.parent == w.scopes[s].parent
    ensures forall w': World :: w'.scopes == w.scopes[s := st] ==> ParentsKept(w, w')
  {
  }

  lemma SameParents(w: World, w': World)
    requires WellFormed(w) && ParentsKept(w, w')
    ensures WellFormed(w')
  {
  }

  lemma NextIsWellFormed(w: World, step: Step, disposable: Item -> bool)
    requires WellFormed(w) && Enabled(w, step, disposable)
    ensures WellFormed(Next(w, step, disposable))
  {
    if step.CreateScope? {
      NewScopeIsWellFormed(w, step.scope, step.parent, disposable);
    } else {
      NextKeepsParents(w, step, disposable);
      SameParents(w, Next(w, step, disposable));
    }
  }

  lemma NewScopeIsWellFormed(w: World, s: ScopeId, p: ScopeId, disposable: Item -> bool)
    requires WellFormed(w) && Enabled(w, CreateScope(s, p), disposable)
    ensures WellFormed(Next(w, CreateScope(s, p), disposable))
  {
  }

  /** Only the creation of a scope changes the hierarchy. */
  lemma NextKeepsParents(w: World, step: Step, disposable: Item -> bool)
    requires WellFormed(w) && Enabled(w, step, disposable) && !step.CreateScope?
    ensures ParentsKept(w, Next(w, step, disposable))
  {
    if step.StaleStart? || step.StaleSettle? || step.StaleDrained? {
      StaleStepKeepsParents(w, step, disposable);
    } else if step.Collected? || step.DestroyNext? || step.DestroySettled? || step.Finish? {
      PassStepKeepsParents(w, step, disposable);
    }
  }

  lemma StaleStepKeepsParents(w: World, step: Step, disposable: Item -> bool)
    requires WellFormed(w) && Enabled(w, step, disposable)
    requires step.StaleStart? || step.StaleSettle? || step.StaleDrained?
    ensures ParentsKept(w, Next(w, step, disposable))
  {
    OneParentKept(w, step.scope, Next(w, step, disposable).scopes[step.scope]);
  }

  lemma PassStepKeepsParents(w: World, step: Step, disposable: Item -> bool)
    requires WellFormed(w) && Enabled(w, step, disposable)
    requires step.Collected? || step.DestroyNext? || step.DestroySettled? || step.Finish?
    ensures ParentsKept(w, Next(w, step, disposable))
  {
    var st := w.scopes[step.scope];
    match step
    case Collected(s) => OneParentKept(w, s, BeginPass(st, disposable));
    case DestroyNext(s) => OneParentKept(w, s, CallBegun(st));
    case DestroySettled(s, threw) => OneParentKept(w, s, CallSettled(st, CurrentItem(st.phase, disposable), threw));
    case Finish(s) => OneParentKept(w, s, Finished(st));
  }

  ghost predicate ValidRun(w: World, steps: seq<Step>, disposable: Item -> bool)
    requires WellFormed(w)
    decreases |steps|
  {
    steps == [] ||
    (Enabled(w, steps[0], disposable) &&
     (NextIsWellFormed(w, steps[0], disposable); ValidRun(Next(w, steps[0], disposable), steps[1..], disposable)))
  }

  ghost function After(w: World, steps: seq<Step>, disposable: Item -> bool): World
    requires WellFormed(w) && ValidRun(w, steps, disposable)
    decreases |steps|
  {
    if steps == [] then w
    else
      NextIsWellFormed(w, steps[0], disposable);
      After(Next(w, steps[0], disposable), steps[1..], disposable)
  }

  // ---------- The passes of one disposal, as loops ----------

  /** What a cached promise settled to. */
  datatype Settled = Fulfilled(instance: Item) | Rejected(reason: nat)

  function Instances(settled: seq<Settled>): seq<Item> {
    if settled == [] then []
    else (if settled[0].Fulfilled? then [settled[0].instance] else []) + Instances(settled[1..])
  }

  function Reasons(settled: seq<Settled>): seq<nat> {
    if settled == [] then [] else (if settled[0].Rejected? then [settled[0].reason] else []) + Reasons(settled[1..])
  }

  lemma OneSettled(settled: seq<Settled>, k: nat)
    requires k < |settled|
    ensures settled[k].Rejected? ==> Instances(settled[k..]) == Instances(settled[k + 1..]) &&
                                     Reasons(settled[k..]) == [settled[k].reason] + Reasons(settled[k + 1..])
    ensures settled[k].Fulfilled? ==> Instances(settled[k..]) == [settled[k].instance] + Instances(settled[k + 1..]) &&
                                      Reasons(settled[k..]) == Reasons(settled[k + 1..])
  {
    assert settled[k..][0] == settled[k] && settled[k..][1..] == settled[k + 1..];
  }

  lemma CollectOne(found: seq<Item>, i: Item, rest: seq<Item>, seen: set<Item>, disposable: Item -> bool)
    ensures found + Collect([i] + rest, seen, disposable) ==
            if disposable(i) && i !in seen then (found + [i]) + Collect(rest, seen + {i}, disposable)
            else found + Collect(rest, seen, disposable)
  {
    assert ([i] + rest)[0] == i && ([i] + rest)[1..] == rest;
  }

  /** The disposable instances in entry order, each once; a rejected entry is no instance but an error. */
  method CollectDisposableInstances(settled: seq<Settled>, disposable: Item -> bool)
      returns (found: seq<Item>, errors: seq<nat>)
    ensures found == Disposables(Instances(settled), disposable) && errors == Reasons(settled)
  {
    found, errors := [], [];
    var seen: set<Item> := {};
    for k := 0 to |settled|
      invariant Disposables(Instances(settled), disposable) ==
                found + Collect(Instances(settled[k..]), seen, disposable)
      invariant Reasons(settled) == errors + Reasons(settled[k..])
    {
      OneSettled(settled, k);
      if settled[k].Rejected? {
        errors := errors + [settled[k].reason];
      } else {
        var instance := settled[k].instance;
        CollectOne(found, instance, Instances(settled[k + 1..]), seen, disposable);
        if disposable(instance) && instance !in seen {
          seen := seen + {instance};
          found := found + [instance];
        }
      }
    }
    assert settled[|settled|..] == [];
  }

  function Failures(items: seq<Item>, throws: Item -> bool): seq<Item> {
    if items == [] then []
    else (if throws(items[0]) then [items[0]] else []) + Failures(items[1..], throws)
  }

  /** Every onDestroy is called, in reverse order, whichever of them throw; every failure is collected. */
  method DisposeInstancesInReverseOrder(disposables: seq<Item>, throws: Item -> bool)
      returns (calls: seq<Item>, errors: seq<Item>)
    ensures calls == Reversed(disposables) && errors == Failures(Reversed(disposables), throws)
  {
    calls, errors := [], [];
    var reversed := Reversed(disposables);
    for k := 0 to |reversed|
      invariant calls == reversed[..k]
      invariant Failures(reversed, throws) == errors + Failures(reversed[k..], throws)
    {
      assert reversed[k..][0] == reversed[k] && reversed[k..][1..] == reversed[k + 1..];
      assert reversed[..k + 1] == reversed[..k] + [reversed[k]];
      calls := calls + [reversed[k]];
      if throws(reversed[k]) { errors := errors + [reversed[k]]; }
    }
    assert reversed[..|reversed|] == reversed && reversed[|reversed|..] == [];
  }
}
