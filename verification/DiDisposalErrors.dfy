/**
 The errors of a whole disposal: what the root's disposal fails with carries every error of its own and of the scopes it
 waited for, each once.
 */
module DiDisposalErrors {
  import opened Options
  import opened DiDisposal
  import opened DiDisposalFacts
  import opened DiDisposalRuns

  // ---------- What the root knows of the scopes it waits for ----------

  /** An awaited scope is tracked until it has been disposed. */
  ghost predicate AwaitedOk(w: World, x: ScopeId) {
    x in w.scopes && x != 0 && (w.scopes[x].tracked || w.scopes[x].phase.Disposed?)
  }

  /** What the root has gathered from a scope is what the scope's disposal ended with. */
  ghost predicate GatheredOk(w: World, x: ScopeId)
    requires x in w.gathered
  {
    x in w.scopes && w.scopes[x].phase.Disposed? && w.gathered[x] == Report(w.scopes[x])
  }

  /** A call that threw was made by the container whose cache the instance had entered. */
  ghost predicate AtHome(w: World) {
    forall c <- w.failed :: c.item in w.home && w.home[c.item] == c.scope
  }

  ghost predicate Gathers(w: World) {
    && 0 in w.scopes && AtHome(w)
    && (w.scopes[0].phase.Live? ==> w.awaited == {}) && (forall x <- w.awaited :: AwaitedOk(w, x))
    && (if RootTurn(w) then w.gathered.Keys == w.awaited else w.gathered == map[])
    && (forall x <- w.gathered :: GatheredOk(w, x))
  }

  /** Once disposed, a container stays so, and its report stays as it is. */
  lemma DisposedStays(w: World, step: Step, x: ScopeId, disposable: Item -> bool)
    requires WellFormed(w) && Enabled(w, step, disposable) && x in w.scopes && w.scopes[x].phase.Disposed?
    ensures x in Next(w, step, disposable).scopes && Next(w, step, disposable).scopes[x].phase == w.scopes[x].phase
  {
    if step.Enter? { UsableIsLive(w, step.scope); }
  }

  lemma AwaitedStays(w: World, step: Step, x: ScopeId, disposable: Item -> bool)
    requires WellFormed(w) && Enabled(w, step, disposable) && AwaitedOk(w, x)
    ensures AwaitedOk(Next(w, step, disposable), x)
  {
    if w.scopes[x].phase.Disposed? {
      DisposedStays(w, step, x, disposable);
    } else {
      TrackedUntilFinished(w, step, x, disposable);
    }
  }

  lemma TrackedUntilFinished(w: World, step: Step, x: ScopeId, disposable: Item -> bool)
    requires WellFormed(w) && Enabled(w, step, disposable) && x in w.scopes && x != 0 && w.scopes[x].tracked
    ensures AwaitedOk(Next(w, step, disposable), x)
  {
  }

  /** Steps other than the root's own two leave alone what it waits for and what it has gathered. */
  lemma OthersKeepAwaiting(w: World, step: Step, disposable: Item -> bool)
    requires WellFormed(w) && Enabled(w, step, disposable) && !step.ScopesSettled?
    requires step.BeginDispose? ==> step.scope != 0
    ensures var w' := Next(w, step, disposable);
            w'.awaited == w.awaited && w'.gathered == w.gathered && 0 in w'.scopes && RootTurn(w') == RootTurn(w)
            && (w'.scopes[0].phase.Live? ==> w.scopes[0].phase.Live?)
  {
    if step.Enter? { UsableIsLive(w, step.scope); }
  }

  lemma GathersKept(w: World, step: Step, disposable: Item -> bool)
    requires Inv(w, disposable) && Gathers(w) && Enabled(w, step, disposable)
    ensures Gathers(Next(w, step, disposable))
  {
    AtHomeKept(w, step, disposable);
    if step == BeginDispose(0) {
      BeginGathers(w);
    } else if step.ScopesSettled? {
      SettledGathers(w);
    } else {
      OthersGather(w, step, disposable);
    }
  }

  lemma BeginGathers(w: World)
    requires Gathers(w) && w.scopes[0].phase.Live? && AtHome(AfterRootBegin(w))
    ensures Gathers(AfterRootBegin(w))
  {
    var w' := AfterRootBegin(w);
    forall x | x in w'.awaited ensures AwaitedOk(w', x) {}
  }

  lemma SettledGathers(w: World)
    requires Gathers(w) && w.scopes[0].phase.AwaitingScopes? && AtHome(AfterScopesSettled(w))
    requires forall x <- w.scopes :: x != 0 ==> !w.scopes[x].tracked
    ensures Gathers(AfterScopesSettled(w))
  {
    var w' := AfterScopesSettled(w);
    forall x | x in w.awaited ensures AwaitedOk(w', x) && w.scopes[x].phase.Disposed? { assert AwaitedOk(w, x); }
    assert w'.gathered.Keys == w.awaited;
  }

  lemma OthersGather(w: World, step: Step, disposable: Item -> bool)
    requires WellFormed(w) && Gathers(w) && Enabled(w, step, disposable) && AtHome(Next(w, step, disposable))
    requires step != BeginDispose(0) && !step.ScopesSettled?
    ensures Gathers(Next(w, step, disposable))
  {
    var w' := Next(w, step, disposable);
    OthersKeepAwaiting(w, step, disposable);
    forall x | x in w.awaited ensures AwaitedOk(w', x) { AwaitedStays(w, step, x, disposable); }
    forall x | x in w.gathered ensures GatheredOk(w', x) {
      assert GatheredOk(w, x);
      DisposedStays(w, step, x, disposable);
    }
  }

  lemma AtHomeKept(w: World, step: Step, disposable: Item -> bool)
    requires WellFormed(w) && AllOk(w, disposable) && AtHome(w) && Enabled(w, step, disposable)
    ensures AtHome(Next(w, step, disposable))
  {
    if step.StaleSettle? {
      assert step == StaleSettle(step.scope, step.item, step.threw);
      StaleSettleAtHome(w, step.scope, step.item, step.threw, disposable);
    } else if step.DestroySettled? {
      assert step == DestroySettled(step.scope, step.threw);
      CallSettleAtHome(w, step.scope, step.threw, disposable);
    } else {
      QuietAtHome(w, step, disposable);
    }
  }

  lemma StaleSettleAtHome(w: World, s: ScopeId, i: Item, threw: bool, disposable: Item -> bool)
    requires WellFormed(w) && AllOk(w, disposable) && AtHome(w) && Enabled(w, StaleSettle(s, i, threw), disposable)
    ensures AtHome(Next(w, StaleSettle(s, i, threw), disposable))
  {
    assert i in w.home && w.home[i] == s by { RunningIsMine(w, s, i, disposable); }
    FailureAtHome(w, s, StaleSettled(w.scopes[s], i, threw), Call(i, s, false), threw);
  }

  lemma CallSettleAtHome(w: World, s: ScopeId, threw: bool, disposable: Item -> bool)
    requires WellFormed(w) && AllOk(w, disposable) && AtHome(w) && Enabled(w, DestroySettled(s, threw), disposable)
    ensures AtHome(Next(w, DestroySettled(s, threw), disposable))
  {
    var i := CurrentItem(w.scopes[s].phase, disposable);
    assert i in w.home && w.home[i] == s by { CurrentIsMine(w, s, disposable); }
    FailureAtHome(w, s, CallSettled(w.scopes[s], i, threw), Call(i, s, true), threw);
  }

  lemma FailureAtHome(w: World, s: ScopeId, st: ScopeState, c: Call, threw: bool)
    requires AtHome(w) && c.item in w.home && w.home[c.item] == c.scope
    ensures AtHome(WithFailure(w, s, st, c, threw))
  {
  }

  lemma QuietAtHome(w: World, step: Step, disposable: Item -> bool)
    requires WellFormed(w) && AtHome(w) && Enabled(w, step, disposable) && !step.StaleSettle? && !step.DestroySettled?
    ensures AtHome(Next(w, step, disposable))
  {
    var w' := Next(w, step, disposable);
    assert w'.failed == w.failed && forall i <- w.home :: i in w'.home && w'.home[i] == w.home[i];
  }

  lemma RunningIsMine(w: World, s: ScopeId, i: Item, disposable: Item -> bool)
    requires s in w.scopes && i in w.scopes[s].running && AllOk(w, disposable)
    ensures i in w.home && w.home[i] == s
  {
    assert ViewOk(ViewOf(w, s), disposable);
    assert i in ViewOf(w, s).mine;
  }

  lemma CurrentIsMine(w: World, s: ScopeId, disposable: Item -> bool)
    requires s in w.scopes && w.scopes[s].phase.Destroying? && AllOk(w, disposable)
    requires w.scopes[s].phase.left < |Disposables(w.scopes[s].phase.entries, disposable)|
    ensures var i := CurrentItem(w.scopes[s].phase, disposable); i in w.home && w.home[i] == s
  {
    var ph := w.scopes[s].phase;
    assert ViewOk(ViewOf(w, s), disposable);
    CollectFacts(ph.entries, {}, disposable);
    assert CurrentItem(ph, disposable) in ph.entries;
    assert CurrentItem(ph, disposable) in ViewOf(w, s).mine;
  }

  lemma {:induction false} RunGathers(w: World, steps: seq<Step>, disposable: Item -> bool)
    requires Inv(w, disposable) && Gathers(w) && ValidRun(w, steps, disposable)
    ensures Gathers(After(w, steps, disposable))
    decreases |steps|
  {
    if steps != [] {
      GathersKept(w, steps[0], disposable);
      StepKeeps(w, steps[0], disposable);
      RunGathers(Next(w, steps[0], disposable), steps[1..], disposable);
    }
  }

  // ---------- Which scopes the root waits for ----------

  /** The root tracks a request scope from its first instance until it has been disposed. */
  ghost predicate TrackedRight(w: World, x: ScopeId)
    requires x in w.scopes
  {
    w.scopes[x].tracked <==> x != 0 && !NeverUsed(w, x) && !w.scopes[x].phase.Disposed?
  }

  ghost predicate AllTracked(w: World) {
    Known(w) && forall x <- w.scopes :: TrackedRight(w, x)
  }

  /** Only the first instance and the end of a disposal change what the root tracks. */
  ghost predicate SameTracking(w: World, w': World, x: ScopeId) {
    && w'.home == w.home && x in w.scopes && x in w'.scopes && w'.scopes[x].tracked == w.scopes[x].tracked
    && w'.scopes[x].phase.Disposed? == w.scopes[x].phase.Disposed?
    && (w'.scopes[x].phase.Live? ==> w.scopes[x].phase.Live?)
  }

  lemma QuietTracking(w: World, step: Step, x: ScopeId, disposable: Item -> bool)
    requires WellFormed(w) && Enabled(w, step, disposable) && x in Next(w, step, disposable).scopes
    requires step.Override? || step.BeginDispose? || step.ScopesSettled? || step.Collected? || step.StaleDrained?
    ensures SameTracking(w, Next(w, step, disposable), x)
  {
    if step.Override? {
      OverrideTracking(w, step.scope, step.drops, x);
    } else if step.BeginDispose? {
      BeginTracking(w, step.scope, x, disposable);
    }
  }

  lemma OverrideTracking(w: World, s: ScopeId, drops: set<Item>, x: ScopeId)
    requires WellFormed(w) && x in AfterOverride(w, s, drops).scopes
    ensures SameTracking(w, AfterOverride(w, s, drops), x)
  {
  }

  lemma BeginTracking(w: World, s: ScopeId, x: ScopeId, disposable: Item -> bool)
    requires WellFormed(w) && Enabled(w, BeginDispose(s), disposable)
    requires x in Next(w, BeginDispose(s), disposable).scopes
    ensures SameTracking(w, Next(w, BeginDispose(s), disposable), x)
  {
  }

  lemma CallTracking(w: World, step: Step, x: ScopeId, disposable: Item -> bool)
    requires WellFormed(w) && Enabled(w, step, disposable) && x in Next(w, step, disposable).scopes
    requires step.StaleStart? || step.StaleSettle? || step.DestroyNext? || step.DestroySettled?
    ensures SameTracking(w, Next(w, step, disposable), x)
  {
  }

  lemma ScopeStays(w: World, step: Step, x: ScopeId, disposable: Item -> bool)
    requires WellFormed(w) && Enabled(w, step, disposable) && x in w.scopes
    ensures x in Next(w, step, disposable).scopes
  {
    if !step.CreateScope? { NextKeepsParents(w, step, disposable); }
  }

  lemma EnterTracks(w: World, s: ScopeId, i: Item, multi: bool, x: ScopeId, disposable: Item -> bool)
    requires WellFormed(w) && AllTracked(w) && Enabled(w, Enter(s, i, multi), disposable) && x in w.scopes
    ensures var w' := Next(w, Enter(s, i, multi), disposable);
            x in w'.scopes && TrackedRight(w', x) && w'.scopes[x].phase == w.scopes[x].phase
  {
    assert TrackedRight(w, x);
    UsableIsLive(w, s);
    EnterUses(w, s, i, Next(w, Enter(s, i, multi), disposable), x);
  }

  lemma CreateTracks(w: World, s: ScopeId, p: ScopeId, x: ScopeId, disposable: Item -> bool)
    requires WellFormed(w) && AllTracked(w) && Enabled(w, CreateScope(s, p), disposable)
    requires x in Next(w, CreateScope(s, p), disposable).scopes
    ensures TrackedRight(Next(w, CreateScope(s, p), disposable), x)
    ensures x in w.scopes ==> Next(w, CreateScope(s, p), disposable).scopes[x] == w.scopes[x]
  {
    assert x in w.scopes ==> TrackedRight(w, x);
    assert NeverUsed(Next(w, CreateScope(s, p), disposable), x) == NeverUsed(w, x);
  }

  lemma FinishTracks(w: World, s: ScopeId, x: ScopeId, disposable: Item -> bool)
    requires WellFormed(w) && AllTracked(w) && Enabled(w, Finish(s), disposable) && x in w.scopes
    ensures x in Next(w, Finish(s), disposable).scopes && TrackedRight(Next(w, Finish(s), disposable), x)
    ensures Next(w, Finish(s), disposable).scopes[x].phase.Live? ==> w.scopes[x].phase.Live?
  {
    assert TrackedRight(w, x);
    assert NeverUsed(Next(w, Finish(s), disposable), x) == NeverUsed(w, x);
  }

  lemma TrackingAfter(w: World, step: Step, x: ScopeId, disposable: Item -> bool)
    requires WellFormed(w) && AllTracked(w) && Enabled(w, step, disposable) && x in Next(w, step, disposable).scopes
    ensures TrackedRight(Next(w, step, disposable), x)
    ensures x in w.scopes && Next(w, step, disposable).scopes[x].phase.Live? ==> w.scopes[x].phase.Live?
  {
    match step
    case Enter(s, i, multi) => EnterTracks(w, s, i, multi, x, disposable);
    case CreateScope(s, p) => CreateTracks(w, s, p, x, disposable);
    case Finish(s) => FinishTracks(w, s, x, disposable);
    case _ => SameTracks(w, step, x, disposable);
  }

  lemma SameTracks(w: World, step: Step, x: ScopeId, disposable: Item -> bool)
    requires WellFormed(w) && AllTracked(w) && Enabled(w, step, disposable) && x in Next(w, step, disposable).scopes
    requires !step.Enter? && !step.CreateScope? && !step.Finish?
    ensures x in w.scopes && SameTracking(w, Next(w, step, disposable), x)
    ensures TrackedRight(Next(w, step, disposable), x)
  {
    if step.StaleStart? || step.StaleSettle? || step.DestroyNext? || step.DestroySettled? {
      CallTracking(w, step, x, disposable);
    } else {
      QuietTracking(w, step, x, disposable);
    }
    assert TrackedRight(w, x);
    assert NeverUsed(Next(w, step, disposable), x) == NeverUsed(w, x);
  }

  lemma TrackingKept(w: World, step: Step, disposable: Item -> bool)
    requires WellFormed(w) && AllTracked(w) && Enabled(w, step, disposable) && Known(Next(w, step, disposable))
    ensures AllTracked(Next(w, step, disposable))
  {
    forall x | x in Next(w, step, disposable).scopes ensures TrackedRight(Next(w, step, disposable), x) {
      TrackingAfter(w, step, x, disposable);
    }
  }

  lemma EnterUses(w: World, s: ScopeId, i: Item, w': World, x: ScopeId)
    requires i !in w.home && w'.home == w.home[i := s]
    ensures NeverUsed(w', x) <==> NeverUsed(w, x) && x != s
  {
    assert w'.home[i] == s;
    forall j | j in w.home ensures w'.home[j] == w.home[j] {}
  }

  lemma {:induction false} RunTracks(w: World, steps: seq<Step>, disposable: Item -> bool)
    requires Inv(w, disposable) && AllTracked(w) && ValidRun(w, steps, disposable)
    ensures AllTracked(After(w, steps, disposable))
    decreases |steps|
  {
    if steps != [] {
      StepKeeps(w, steps[0], disposable);
      TrackingKept(w, steps[0], disposable);
      RunTracks(Next(w, steps[0], disposable), steps[1..], disposable);
    }
  }

  /** Once the root's disposal has begun, the scopes it waits for stay the same. */
  lemma {:induction false} AwaitingStays(w: World, steps: seq<Step>, disposable: Item -> bool)
    requires Inv(w, disposable) && ValidRun(w, steps, disposable) && !w.scopes[0].phase.Live?
    ensures After(w, steps, disposable).awaited == w.awaited
    decreases |steps|
  {
    if steps != [] {
      var w' := Next(w, steps[0], disposable);
      StepKeeps(w, steps[0], disposable);
      if !steps[0].ScopesSettled? { OthersKeepAwaiting(w, steps[0], disposable); }
      AwaitingStays(w', steps[1..], disposable);
    }
  }

  /** A disposal that has begun is never taken back. */
  lemma {:induction false} BegunStays(w: World, steps: seq<Step>, x: ScopeId, disposable: Item -> bool)
    requires Inv(w, disposable) && AllTracked(w) && ValidRun(w, steps, disposable)
    requires x in w.scopes && !w.scopes[x].phase.Live?
    ensures x in After(w, steps, disposable).scopes && !After(w, steps, disposable).scopes[x].phase.Live?
    decreases |steps|
  {
    if steps != [] {
      StepKeeps(w, steps[0], disposable);
      TrackingKept(w, steps[0], disposable);
      ScopeStays(w, steps[0], x, disposable);
      TrackingAfter(w, steps[0], x, disposable);
      BegunStays(Next(w, steps[0], disposable), steps[1..], x, disposable);
    }
  }

  /** The request scope has constructed an instance and has not been disposed. */
  ghost predicate InUse(w: World, x: ScopeId) {
    x in w.scopes && x != 0 && !NeverUsed(w, x) && !w.scopes[x].phase.Disposed?
  }

  lemma BeginAwaits(w: World, x: ScopeId, disposable: Item -> bool)
    requires WellFormed(w) && AllTracked(w) && Enabled(w, BeginDispose(0), disposable)
    ensures x in Next(w, BeginDispose(0), disposable).awaited <==> InUse(w, x)
    ensures var w' := Next(w, BeginDispose(0), disposable);
            && 0 in w'.scopes && !w'.scopes[0].phase.Live?
            && (InUse(w, x) ==> x in w'.scopes && !w'.scopes[x].phase.Live?)
  {
    assert x in w.scopes ==> TrackedRight(w, x);
  }

  /** The run has come to w, and the root's disposal can begin. */
  ghost predicate BeginsAt(before: seq<Step>, w: World, disposable: Item -> bool) {
    && ValidRun(Initial, before, disposable) && w == After(Initial, before, disposable)
    && WellFormed(w) && Enabled(w, BeginDispose(0), disposable)
  }

  /** From w the run goes on to the given state. */
  ghost predicate RunsTo(w: World, steps: seq<Step>, end: World, disposable: Item -> bool) {
    WellFormed(w) && ValidRun(w, steps, disposable) && end == After(w, steps, disposable)
  }

  /**
   The root's disposal waits for exactly the request scopes that had constructed an instance and were not yet disposed
   when it began, whether or not their own disposal was already under way; from then on all of these are in disposal.
   */
  lemma AwaitedExactly(before: seq<Step>, w: World, after: seq<Step>, end: World, x: ScopeId,
                       disposable: Item -> bool)
    requires BeginsAt(before, w, disposable) && RunsTo(Next(w, BeginDispose(0), disposable), after, end, disposable)
    ensures x in end.awaited <==> InUse(w, x)
    ensures InUse(w, x) ==> x in end.scopes && !end.scopes[x].phase.Live?
  {
    BeginIsSound(before, w, disposable);
    AwaitedFrom(w, after, end, x, disposable);
  }

  lemma BeginIsSound(before: seq<Step>, w: World, disposable: Item -> bool)
    requires BeginsAt(before, w, disposable)
    ensures Inv(w, disposable) && AllTracked(w)
  {
    ReachableInv(before, disposable);
    InitialInv(disposable);
    NothingTracked();
    RunTracks(Initial, before, disposable);
  }

  lemma NothingTracked()
    ensures AllTracked(Initial)
  {
  }

  lemma AwaitedFrom(w: World, after: seq<Step>, end: World, x: ScopeId, disposable: Item -> bool)
    requires Inv(w, disposable) && AllTracked(w) && Enabled(w, BeginDispose(0), disposable)
    requires RunsTo(Next(w, BeginDispose(0), disposable), after, end, disposable)
    ensures x in end.awaited <==> InUse(w, x)
    ensures InUse(w, x) ==> x in end.scopes && !end.scopes[x].phase.Live?
  {
    BeginAwaits(w, x, disposable);
    StepKeeps(w, BeginDispose(0), disposable);
    TrackingKept(w, BeginDispose(0), disposable);
    AwaitingStays(Next(w, BeginDispose(0), disposable), after, disposable);
    if InUse(w, x) { BegunStays(Next(w, BeginDispose(0), disposable), after, x, disposable); }
  }

  // ---------- Counting errors ----------

  /** All errors the root has gathered from its scopes. */
  ghost function Sum(gathered: map<ScopeId, seq<Item>>): multiset<Item>
    decreases |gathered|
  {
    if gathered == map[] then multiset{}
    else
      var x :| x in gathered;
      multiset(gathered[x]) + Sum(gathered - {x})
  }

  /** What the root's disposal fails with: the errors of the scopes it waited for, and its own. */
  ghost function RootReport(w: World): multiset<Item>
    requires 0 in w.scopes && w.scopes[0].phase.Disposed?
  {
    Sum(w.gathered) + multiset(Report(w.scopes[0]))
  }

  /** An error that only one scope can have is counted there. */
  lemma {:induction false} SumAt(gathered: map<ScopeId, seq<Item>>, i: Item, s: ScopeId)
    requires forall x <- gathered :: x != s ==> i !in gathered[x]
    ensures Sum(gathered)[i] == if s in gathered then multiset(gathered[s])[i] else 0
    decreases |gathered|
  {
    if gathered != map[] {
      var x :| x in gathered && Sum(gathered) == multiset(gathered[x]) + Sum(gathered - {x});
      SumAt(gathered - {x}, i, s);
    }
  }

  /** A container's errors are those of its pass and those of its stale tasks. */
  lemma {:induction false} FailuresSplit(failed: seq<Call>, s: ScopeId, i: Item)
    requires forall c <- failed :: c.item == i ==> c.scope == s
    ensures multiset(PassOf(failed, s))[i] + StaleFailuresOf(failed, s)[i] == CallsOf(failed, i)
    decreases |failed|
  {
    if failed != [] {
      var before, last := failed[..|failed| - 1], failed[|failed| - 1];
      FailuresSplit(before, s, i);
      assert last in failed;
      assert multiset(PassOf(before, s) + [last.item]) == multiset(PassOf(before, s)) + multiset{last.item};
    }
  }

  lemma {:induction false} NoFailuresElsewhere(failed: seq<Call>, s: ScopeId, i: Item)
    requires forall c <- failed :: c.item == i ==> c.scope != s
    ensures i !in PassOf(failed, s) && StaleFailuresOf(failed, s)[i] == 0
    decreases |failed|
  {
    if failed != [] {
      assert failed[|failed| - 1] in failed;
      NoFailuresElsewhere(failed[..|failed| - 1], s, i);
    }
  }

  /** The report of a disposed container, error by error. */
  lemma ReportCounts(w: World, s: ScopeId, i: Item, disposable: Item -> bool)
    requires s in w.scopes && ViewOk(ViewOf(w, s), disposable) && w.scopes[s].phase.Disposed?
    requires AtHome(w) && i in w.home
    ensures w.home[i] != s ==> i !in Report(w.scopes[s])
    ensures w.home[i] == s ==>
              multiset(Report(w.scopes[s]))[i] + multiset(w.scopes[s].staleErrors)[i] == CallsOf(w.failed, i)
  {
    var st := w.scopes[s];
    DisposedLaw(w, s, disposable);
    assert multiset(Report(st)) == multiset(st.phase.stale) + multiset(st.phase.thrown);
    if w.home[i] == s {
      FailuresSplit(w.failed, s, i);
    } else {
      NoFailuresElsewhere(w.failed, s, i);
      assert multiset(st.phase.stale)[i] == 0 && multiset(st.phase.thrown)[i] == 0;
    }
  }

  /**
   When the root has been disposed, its disposal fails with every error that was thrown for an instance of its own or of
   a scope it waited for, each as often as it was thrown, except those of stale tasks that ended too late.  Those belong
   to instances that an override dropped while the disposal of their scope was under way.
   */
  lemma RootReportsEveryError(steps: seq<Step>, i: Item, disposable: Item -> bool)
    requires ValidRun(Initial, steps, disposable)
    requires var w := After(Initial, steps, disposable);
             0 in w.scopes && w.scopes[0].phase.Disposed? && i in w.home && (w.home[i] == 0 || w.home[i] in w.awaited)
    ensures var w := After(Initial, steps, disposable);
            w.home[i] in w.scopes &&
            RootReport(w)[i] + multiset(w.scopes[w.home[i]].staleErrors)[i] == CallsOf(w.failed, i)
    ensures var w := After(Initial, steps, disposable); i !in w.hits ==> RootReport(w)[i] == CallsOf(w.failed, i)
  {
    var w := After(Initial, steps, disposable);
    ReachableInv(steps, disposable);
    InitialInv(disposable);
    RunGathers(Initial, steps, disposable);
    RootReportCounts(w, i, disposable);
  }

  lemma RootReportCounts(w: World, i: Item, disposable: Item -> bool)
    requires Inv(w, disposable) && Gathers(w) && w.scopes[0].phase.Disposed? && i in w.home
    requires w.home[i] == 0 || w.home[i] in w.awaited
    ensures w.home[i] in w.scopes
    ensures RootReport(w)[i] + multiset(w.scopes[w.home[i]].staleErrors)[i] == CallsOf(w.failed, i)
    ensures i !in w.hits ==> RootReport(w)[i] == CallsOf(w.failed, i)
  {
    var s := w.home[i];
    assert s in w.gathered ==> GatheredOk(w, s);
    assert ViewOk(ViewOf(w, 0), disposable) && ViewOk(ViewOf(w, s), disposable);
    GatheredCounts(w, i, disposable);
    ReportCounts(w, 0, i, disposable);
    ReportCounts(w, s, i, disposable);
    LateIsHit(w, s, i, disposable);
  }

  lemma GatheredCounts(w: World, i: Item, disposable: Item -> bool)
    requires AllOk(w, disposable) && AtHome(w) && i in w.home && forall x <- w.gathered :: GatheredOk(w, x)
    ensures Sum(w.gathered)[i] == if w.home[i] in w.gathered then multiset(w.gathered[w.home[i]])[i] else 0
  {
    forall x | x in w.gathered ensures x != w.home[i] ==> i !in w.gathered[x] {
      assert GatheredOk(w, x) && ViewOk(ViewOf(w, x), disposable);
      ReportCounts(w, x, i, disposable);
    }
    SumAt(w.gathered, i, w.home[i]);
  }

  lemma LateIsHit(w: World, s: ScopeId, i: Item, disposable: Item -> bool)
    requires s in w.scopes && ViewOk(ViewOf(w, s), disposable) && w.scopes[s].phase.Disposed?
    ensures i !in w.hits ==> multiset(w.scopes[s].staleErrors)[i] == 0
  {
    DisposedLaw(w, s, disposable);
  }
}
