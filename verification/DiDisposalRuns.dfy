/** Disposal over whole runs: the laws each container keeps, put together over the tree and over every interleaving. */
module DiDisposalRuns {
  import opened Options
  import opened DiDisposal
  import opened DiDisposalFacts

  ghost predicate Known(w: World) {
    && (forall i <- w.home :: w.home[i] in w.scopes)
    && (forall i <- w.hits :: i in w.home)
    && (forall c <- w.log :: c.item in w.home && c.scope in w.scopes)
    && (forall c <- w.failed :: c.scope in w.scopes)
  }

  ghost predicate AllOk(w: World, disposable: Item -> bool) {
    forall s <- w.scopes :: ViewOk(ViewOf(w, s), disposable)
  }

  predicate RootTurn(w: World)
    requires 0 in w.scopes
  {
    InDisposal(w.scopes[0].phase) || w.scopes[0].phase.Disposed?
  }

  /** No instance ever entered the container. */
  ghost predicate NeverUsed(w: World, x: ScopeId) {
    forall i <- w.home :: w.home[i] != x
  }

  /** Nothing is left for the container's pass, and only a disposed container has stale tasks. */
  ghost predicate Retired(st: ScopeState, neverUsed: bool) {
    match st.phase
    case Live => neverUsed && Entries(st) == []
    case AwaitingScopes => false
    case AwaitingStale(e) => neverUsed && e == []
    case Collecting(e) => neverUsed && e == []
    case Destroying(_, left, _, _, _) => left == 0
    case Disposed(_, _, _) => true
  }

  ghost predicate InTime(st: ScopeState, rootTurn: bool, neverUsed: bool) {
    !st.phase.AwaitingScopes? && (rootTurn ==> !st.tracked) && (!st.tracked ==> Retired(st, neverUsed))
  }

  /** A scope that the root does not track has retired; once the root turns to its own entries it tracks none. */
  ghost predicate RetiredInTime(w: World, x: ScopeId)
    requires 0 in w.scopes && x in w.scopes
  {
    x != 0 ==> InTime(w.scopes[x], RootTurn(w), NeverUsed(w, x))
  }

  ghost predicate RootLast(log: seq<Call>) {
    forall a, b | 0 <= a < b < |log| :: log[a].inPass && log[a].scope == 0 && log[b].inPass ==> log[b].scope == 0
  }

  ghost predicate Inv(w: World, disposable: Item -> bool) {
    && WellFormed(w) && Known(w) && AllOk(w, disposable)
    && (forall x <- w.scopes :: RetiredInTime(w, x)) && RootLast(w.log)
  }

  // ---------- One container in one step ----------

  lemma {:induction false} NoCallsYet(log: seq<Call>, s: ScopeId)
    requires forall c <- log :: c.scope != s
    ensures PassOf(log, s) == []
    decreases |log|
  {
    if log != [] { NoCallsYet(log[..|log| - 1], s); }
  }

  lemma {:induction false} NoStaleFailureYet(failed: seq<Call>, s: ScopeId)
    requires forall c <- failed :: c.scope != s
    ensures StaleFailuresOf(failed, s) == multiset{}
    decreases |failed|
  {
    if failed != [] { NoStaleFailureYet(failed[..|failed| - 1], s); }
  }

  lemma {:induction false} NeverCalled(log: seq<Call>, i: Item)
    requires forall c <- log :: c.item != i
    ensures CallsOf(log, i) == 0
    decreases |log|
  {
    if log != [] { NeverCalled(log[..|log| - 1], i); }
  }

  lemma {:induction false} UsableIsLive(w: World, s: ScopeId)
    requires WellFormed(w) && Usable(w, s)
    ensures s in w.scopes && w.scopes[s].phase.Live? && w.scopes[0].phase.Live?
    decreases s
  {
    if s != 0 { UsableIsLive(w, w.scopes[s].parent.value); }
  }

  lemma CreateView(w: World, s: ScopeId, p: ScopeId, x: ScopeId, disposable: Item -> bool)
    requires Known(w) && s !in w.scopes && (x in w.scopes ==> ViewOk(ViewOf(w, x), disposable))
    requires x == s || x in w.scopes
    ensures var st := ScopeState(Some(p), [], [], false, {}, {}, [], Live);
            ViewOk(ViewOf(w.(scopes := w.scopes[s := st]), x), disposable)
  {
    var w' := w.(scopes := w.scopes[s := ScopeState(Some(p), [], [], false, {}, {}, [], Live)]);
    if x == s {
      NoCallsYet(w.log, s);
      NoCallsYet(w.failed, s);
      NoStaleFailureYet(w.failed, s);
      assert ViewOf(w', s) == View(w'.scopes[s], {}, map[], [], {}, [], multiset{});
    } else {
      assert ViewOf(w', x) == ViewOf(w, x);
    }
  }

  lemma EnterHere(w: World, s: ScopeId, i: Item, multi: bool, disposable: Item -> bool)
    requires WellFormed(w) && Known(w) && Enabled(w, Enter(s, i, multi), disposable) && ViewOk(ViewOf(w, s), disposable)
    ensures ViewOk(ViewOf(Next(w, Enter(s, i, multi), disposable), s), disposable)
  {
    UsableIsLive(w, s);
    EnterChange(w, s, i, multi, disposable);
    EnterOk(ViewOf(w, s), ViewOf(Next(w, Enter(s, i, multi), disposable), s), i, disposable);
  }

  lemma EnterChange(w: World, s: ScopeId, i: Item, multi: bool, disposable: Item -> bool)
    requires WellFormed(w) && Known(w) && Enabled(w, Enter(s, i, multi), disposable) && s in w.scopes
    ensures var v, v' := ViewOf(w, s), ViewOf(Next(w, Enter(s, i, multi), disposable), s);
            && v' == v.(st := v'.st, mine := v.mine + {i}, calls := v.calls[i := 0])
            && (forall x :: x in Entries(v'.st) <==> x in Entries(v.st) || x == i)
  {
    var w' := Next(w, Enter(s, i, multi), disposable);
    EnterOwns(w, w', s, i);
    var st, st' := w.scopes[s], w'.scopes[s];
    assert st' == if multi then st.(multiCache := st.multiCache + [i], tracked := s != 0)
                  else st.(cache := st.cache + [i], tracked := s != 0);
  }

  lemma EnterOwns(w: World, w': World, s: ScopeId, i: Item)
    requires Known(w) && s in w.scopes && s in w'.scopes && i !in w.home && w'.home == w.home[i := s]
    requires w'.log == w.log && w'.hits == w.hits && w'.failed == w.failed
    ensures var v, v' := ViewOf(w, s), ViewOf(w', s);
            v' == v.(st := v'.st, mine := v.mine + {i}, calls := v.calls[i := 0])
  {
    NeverCalled(w.log, i);
    var v, v' := ViewOf(w, s), ViewOf(w', s);
    assert v'.mine == v.mine + {i} && v'.calls == v.calls[i := 0] && v'.hits == v.hits;
  }

  lemma EnterElsewhere(w: World, s: ScopeId, i: Item, multi: bool, x: ScopeId, disposable: Item -> bool)
    requires WellFormed(w) && Known(w) && Enabled(w, Enter(s, i, multi), disposable) && x in w.scopes && x != s
    ensures ViewOf(Next(w, Enter(s, i, multi), disposable), x) == ViewOf(w, x)
  {
  }

  /** Changing one container without a call changes its view in the state only, and no other view. */
  lemma QuietView(w: World, s: ScopeId, st: ScopeState, x: ScopeId)
    requires s in w.scopes && x in w.scopes
    ensures ViewOf(With(w, s, st, w.log), x) == if x == s then ViewOf(w, s).(st := st) else ViewOf(w, x)
  {
  }

  lemma CallView(w: World, s: ScopeId, st: ScopeState, c: Call, x: ScopeId)
    requires s in w.scopes && x in w.scopes && c.scope == s && c.item in w.home && w.home[c.item] == s
    ensures var w' := With(w, s, st, w.log + [c]);
            var v := ViewOf(w, s);
            c.item in v.calls &&
            ViewOf(w', x) == if x != s then ViewOf(w, x)
                             else v.(st := st, calls := v.calls[c.item := v.calls[c.item] + 1],
                                     pass := if c.inPass then v.pass + [c.item] else v.pass)
  {
    var w' := With(w, s, st, w.log + [c]);
    forall i ensures CallsOf(w'.log, i) == CallsOf(w.log, i) + if c.item == i then 1 else 0 {
      OneMoreCall(w.log, c, i);
    }
    OneMoreInPass(w.log, c, x);
    if x == s {
      var v := ViewOf(w, s);
      assert ViewOf(w', s).calls == v.calls[c.item := v.calls[c.item] + 1];
    } else {
      assert ViewOf(w', x).calls == ViewOf(w, x).calls;
    }
  }

  lemma StaleIsMine(w: World, s: ScopeId, i: Item, disposable: Item -> bool)
    requires s in w.scopes && i in w.scopes[s].waiting && ViewOk(ViewOf(w, s), disposable)
    ensures i in w.home && w.home[i] == s
  {
    assert i in ViewOf(w, s).mine;
  }

  /** A stale task that starts is a call if its instance has onDestroy, and a change of the state in any case. */
  lemma StaleStartChange(w: World, s: ScopeId, i: Item, x: ScopeId, disposable: Item -> bool)
    requires s in w.scopes && x in w.scopes && WellFormed(w) && Enabled(w, StaleStart(s, i), disposable)
    requires i in w.home && w.home[i] == s
    ensures var v := ViewOf(w, s);
            i in v.calls && ViewOf(Next(w, StaleStart(s, i), disposable), x) ==
                            if x != s then ViewOf(w, x) else StaleBegun(v, i, disposable)
  {
    var st := w.scopes[s];
    var st' := st.(waiting := st.waiting - {i}, running := st.running + {i});
    if disposable(i) {
      CallView(w, s, st', Call(i, s, false), x);
    } else {
      QuietView(w, s, st', x);
    }
  }

  lemma StaleStartView(w: World, s: ScopeId, i: Item, x: ScopeId, disposable: Item -> bool)
    requires WellFormed(w) && Enabled(w, StaleStart(s, i), disposable) && x in w.scopes
    requires ViewOk(ViewOf(w, x), disposable) && ViewOk(ViewOf(w, s), disposable)
    ensures ViewOk(ViewOf(Next(w, StaleStart(s, i), disposable), x), disposable)
  {
    StaleIsMine(w, s, i, disposable);
    if x == s { StaleStartHere(w, s, i, disposable); } else { StaleStartChange(w, s, i, x, disposable); }
  }

  lemma StaleStartHere(w: World, s: ScopeId, i: Item, disposable: Item -> bool)
    requires WellFormed(w) && Enabled(w, StaleStart(s, i), disposable) && ViewOk(ViewOf(w, s), disposable)
    ensures ViewOk(ViewOf(Next(w, StaleStart(s, i), disposable), s), disposable)
  {
    StaleIsMine(w, s, i, disposable);
    StaleStartOk(ViewOf(w, s), i, disposable);
    StaleStartChange(w, s, i, s, disposable);
  }

  lemma NextIsMine(w: World, s: ScopeId, disposable: Item -> bool)
    requires WellFormed(w) && Enabled(w, DestroyNext(s), disposable) && ViewOk(ViewOf(w, s), disposable)
    ensures var i := NextItem(w.scopes[s].phase, disposable);
            i in w.home && w.home[i] == s
  {
    var ph := w.scopes[s].phase;
    NextInPass(ph.entries, ph.left, disposable);
    assert Disposables(ph.entries, disposable)[ph.left - 1] in ViewOf(w, s).mine;
  }

  lemma PassCallView(w: World, s: ScopeId, i: Item, x: ScopeId)
    requires s in w.scopes && x in w.scopes && w.scopes[s].phase.Destroying? && w.scopes[s].phase.left > 0
    requires i in w.home && w.home[i] == s
    ensures var v := ViewOf(w, s);
            var w' := With(w, s, CallBegun(w.scopes[s]), w.log + [Call(i, s, true)]);
            i in v.calls && ViewOf(w', x) == if x != s then ViewOf(w, x) else WithCall(v, i)
  {
    CallView(w, s, CallBegun(w.scopes[s]), Call(i, s, true), x);
  }

  lemma DestroyChange(w: World, s: ScopeId, x: ScopeId, disposable: Item -> bool)
    requires WellFormed(w) && Enabled(w, DestroyNext(s), disposable) && x in w.scopes
    requires var i := NextItem(w.scopes[s].phase, disposable);
             i in w.home && w.home[i] == s
    ensures var v := ViewOf(w, s);
            var i := NextItem(v.st.phase, disposable);
            i in v.calls && ViewOf(Next(w, DestroyNext(s), disposable), x) ==
                            if x != s then ViewOf(w, x) else WithCall(v, i)
  {
    PassCallView(w, s, NextItem(w.scopes[s].phase, disposable), x);
  }

  lemma DestroyView(w: World, s: ScopeId, x: ScopeId, disposable: Item -> bool)
    requires WellFormed(w) && Enabled(w, DestroyNext(s), disposable) && x in w.scopes
    requires ViewOk(ViewOf(w, x), disposable) && ViewOk(ViewOf(w, s), disposable)
    ensures ViewOk(ViewOf(Next(w, DestroyNext(s), disposable), x), disposable)
  {
    NextIsMine(w, s, disposable);
    if x == s { DestroyHere(w, s, disposable); } else { DestroyChange(w, s, x, disposable); }
  }

  lemma DestroyHere(w: World, s: ScopeId, disposable: Item -> bool)
    requires WellFormed(w) && Enabled(w, DestroyNext(s), disposable) && ViewOk(ViewOf(w, s), disposable)
    ensures ViewOk(ViewOf(Next(w, DestroyNext(s), disposable), s), disposable)
  {
    NextIsMine(w, s, disposable);
    CalledViewOk(w, s, disposable);
    DestroyChange(w, s, s, disposable);
  }

  lemma CalledViewOk(w: World, s: ScopeId, disposable: Item -> bool)
    requires WellFormed(w) && Enabled(w, DestroyNext(s), disposable) && ViewOk(ViewOf(w, s), disposable)
    ensures var v := ViewOf(w, s);
            var i := NextItem(v.st.phase, disposable);
            i in v.calls && ViewOk(WithCall(v, i), disposable)
  {
    DestroyOk(ViewOf(w, s), disposable);
  }

  lemma OverrideView(w: World, s: ScopeId, drops: set<Item>, x: ScopeId, disposable: Item -> bool)
    requires WellFormed(w) && x in w.scopes && ViewOk(ViewOf(w, x), disposable)
    ensures ViewOk(ViewOf(AfterOverride(w, s, drops), x), disposable)
  {
    var w' := AfterOverride(w, s, drops);
    var v, v' := ViewOf(w, x), ViewOf(w', x);
    assert v'.mine == v.mine && v'.calls == v.calls && v'.pass == v.pass;
    assert v'.thrown == v.thrown && v'.staleFailures == v.staleFailures;
    if Below(w, x, s) {
      var gone := set i | i in drops && i in Entries(v.st);
      assert v'.hits == if InDisposal(v.st.phase) then v.hits + gone else v.hits;
      DropOk(v, drops, disposable);
    } else {
      assert v' == v;
    }
  }

  lemma RootBeginView(w: World, x: ScopeId, disposable: Item -> bool)
    requires WellFormed(w) && x in w.scopes && ViewOk(ViewOf(w, x), disposable) && w.scopes[0].phase.Live?
    ensures ViewOk(ViewOf(AfterRootBegin(w), x), disposable)
  {
    var w' := AfterRootBegin(w);
    var v := ViewOf(w, x);
    assert ViewOf(w', x) == v.(st := w'.scopes[x]);
    if x != 0 && w.scopes[x].tracked && w.scopes[x].phase.Live? { BeginOk(v, disposable); }
  }

  lemma OtherSteps(w: World, step: Step, x: ScopeId, disposable: Item -> bool)
    requires WellFormed(w) && Enabled(w, step, disposable) && x in w.scopes && ViewOk(ViewOf(w, x), disposable)
    requires step.StaleDrained? || step.Collected? || step.Finish?
    ensures ViewOk(ViewOf(Next(w, step, disposable), x), disposable)
  {
    var s := step.scope;
    QuietView(w, s, Next(w, step, disposable).scopes[s], x);
    if x == s {
      if step.StaleDrained? { DrainedOk(ViewOf(w, s), disposable); }
      if step.Collected? { CollectedOk(ViewOf(w, s), disposable); }
      if step.Finish? { FinishOk(ViewOf(w, s), disposable); }
    }
  }

  /** A call that settles changes the state and the errors of its container only. */
  lemma FailureView(w: World, s: ScopeId, st: ScopeState, c: Call, threw: bool, x: ScopeId)
    requires s in w.scopes && x in w.scopes && c.scope == s
    ensures var v := ViewOf(w, s);
            ViewOf(WithFailure(w, s, st, c, threw), x) ==
            if x != s then ViewOf(w, x)
            else v.(st := st,
                    thrown := v.thrown + if threw && c.inPass then [c.item] else [],
                    staleFailures := v.staleFailures + if threw && !c.inPass then multiset{c.item} else multiset{})
  {
    QuietView(w, s, st, x);
    OneMoreInPass(w.failed, c, x);
    OneMoreStaleFailure(w.failed, c, x);
  }

  lemma SettleView(w: World, step: Step, x: ScopeId, disposable: Item -> bool)
    requires WellFormed(w) && Enabled(w, step, disposable) && x in w.scopes && ViewOk(ViewOf(w, x), disposable)
    requires step.StaleSettle? || step.DestroySettled?
    ensures ViewOk(ViewOf(Next(w, step, disposable), x), disposable)
  {
    match step
    case StaleSettle(s, i, threw) => StaleSettleView(w, s, i, threw, x, disposable);
    case DestroySettled(s, threw) =>
      CallSettleView(w, s, CurrentItem(w.scopes[s].phase, disposable), threw, x, disposable);
  }

  lemma StaleSettleView(w: World, s: ScopeId, i: Item, threw: bool, x: ScopeId, disposable: Item -> bool)
    requires s in w.scopes && x in w.scopes && i in w.scopes[s].running && ViewOk(ViewOf(w, x), disposable)
    ensures var w' := WithFailure(w, s, StaleSettled(w.scopes[s], i, threw), Call(i, s, false), threw);
            ViewOk(ViewOf(w', x), disposable)
  {
    var w' := WithFailure(w, s, StaleSettled(w.scopes[s], i, threw), Call(i, s, false), threw);
    assert ViewOf(w', x) == if x == s then WithStaleSettled(ViewOf(w, s), i, threw) else ViewOf(w, x) by {
      FailureView(w, s, StaleSettled(w.scopes[s], i, threw), Call(i, s, false), threw, x);
    }
    if x == s { StaleSettleOk(ViewOf(w, s), i, threw, disposable); }
  }

  lemma CallSettleView(w: World, s: ScopeId, i: Item, threw: bool, x: ScopeId, disposable: Item -> bool)
    requires s in w.scopes && x in w.scopes && w.scopes[s].phase.Destroying? && ViewOk(ViewOf(w, x), disposable)
    ensures var w' := WithFailure(w, s, CallSettled(w.scopes[s], i, threw), Call(i, s, true), threw);
            ViewOk(ViewOf(w', x), disposable)
  {
    FailureView(w, s, CallSettled(w.scopes[s], i, threw), Call(i, s, true), threw, x);
    if x == s { CallSettledOk(ViewOf(w, s), i, threw, disposable); }
  }

  lemma StepView(w: World, step: Step, x: ScopeId, disposable: Item -> bool)
    requires WellFormed(w) && Known(w) && Enabled(w, step, disposable) && x in Next(w, step, disposable).scopes
    requires x in w.scopes ==> ViewOk(ViewOf(w, x), disposable)
    requires DisposalStep(step) ==> ViewOk(ViewOf(w, Acting(step)), disposable)
    ensures ViewOk(ViewOf(Next(w, step, disposable), x), disposable)
  {
    if step.CreateScope? {
      CreateView(w, step.scope, step.parent, x, disposable);
    } else if step.Enter? && x == step.scope {
      EnterHere(w, step.scope, step.item, step.multi, disposable);
    } else if step.Enter? {
      EnterElsewhere(w, step.scope, step.item, step.multi, x, disposable);
    } else if step.Override? {
      OverrideView(w, step.scope, step.drops, x, disposable);
    } else {
      DisposalView(w, step, x, disposable);
    }
  }

  predicate DisposalStep(step: Step) {
    !step.CreateScope? && !step.Enter? && !step.Override?
  }

  function Acting(step: Step): ScopeId {
    if step.ScopesSettled? then 0 else step.scope
  }

  lemma DisposalView(w: World, step: Step, x: ScopeId, disposable: Item -> bool)
    requires WellFormed(w) && Enabled(w, step, disposable) && DisposalStep(step) && x in w.scopes
    requires ViewOk(ViewOf(w, x), disposable) && ViewOk(ViewOf(w, Acting(step)), disposable)
    ensures ViewOk(ViewOf(Next(w, step, disposable), x), disposable)
  {
    match step
    case BeginDispose(s) => if s == 0 { RootBeginView(w, x, disposable); } else { BeginView(w, s, x, disposable); }
    case ScopesSettled => BeginView(w, 0, x, disposable);
    case StaleStart(s, i) => StaleStartView(w, s, i, x, disposable);
    case DestroyNext(s) => DestroyView(w, s, x, disposable);
    case StaleSettle(_, _, _) => SettleView(w, step, x, disposable);
    case DestroySettled(_, _) => SettleView(w, step, x, disposable);
    case _ => OtherSteps(w, step, x, disposable);
  }

  lemma BeginView(w: World, s: ScopeId, x: ScopeId, disposable: Item -> bool)
    requires s in w.scopes && x in w.scopes && ViewOk(ViewOf(w, x), disposable)
    requires w.scopes[s].phase.Live? || w.scopes[s].phase.AwaitingScopes?
    ensures ViewOk(ViewOf(With(w, s, Begin(w.scopes[s]), w.log), x), disposable)
  {
    QuietView(w, s, Begin(w.scopes[s]), x);
    if x == s { BeginOk(ViewOf(w, s), disposable); }
  }

  // ---------- Bookkeeping ----------

  lemma StepKnown(w: World, step: Step, disposable: Item -> bool)
    requires WellFormed(w) && Known(w) && Enabled(w, step, disposable)
    requires step.StaleStart? || step.DestroyNext? ==> ViewOk(ViewOf(w, step.scope), disposable)
    ensures Known(Next(w, step, disposable))
  {
    match step
    case CreateScope(s, p) => CreateKnown(w, s, p, disposable);
    case Enter(s, i, multi) => EnterKnown(w, s, i, multi, disposable);
    case Override(s, drops) => OverrideKnown(w, s, drops);
    case StaleStart(s, i) => StaleStartKnown(w, s, i, disposable);
    case DestroyNext(s) => DestroyNextKnown(w, s, disposable);
    case StaleSettle(_, _, _) => SettleKnown(w, step, disposable);
    case DestroySettled(_, _) => SettleKnown(w, step, disposable);
    case _ => QuietKnown(w, step, disposable);
  }

  lemma QuietKnown(w: World, step: Step, disposable: Item -> bool)
    requires WellFormed(w) && Known(w) && Enabled(w, step, disposable)
    requires step.BeginDispose? || step.ScopesSettled? || step.StaleDrained? || step.Collected? || step.Finish?
    ensures Known(Next(w, step, disposable))
  {
    SameKnown(w, Next(w, step, disposable));
  }

  lemma CreateKnown(w: World, s: ScopeId, p: ScopeId, disposable: Item -> bool)
    requires WellFormed(w) && Known(w) && Enabled(w, CreateScope(s, p), disposable)
    ensures Known(Next(w, CreateScope(s, p), disposable))
  {
  }

  lemma EnterKnown(w: World, s: ScopeId, i: Item, multi: bool, disposable: Item -> bool)
    requires WellFormed(w) && Known(w) && Enabled(w, Enter(s, i, multi), disposable)
    ensures Known(Next(w, Enter(s, i, multi), disposable))
  {
    UsableIsLive(w, s);
  }

  lemma StaleStartKnown(w: World, s: ScopeId, i: Item, disposable: Item -> bool)
    requires WellFormed(w) && Known(w) && Enabled(w, StaleStart(s, i), disposable) && ViewOk(ViewOf(w, s), disposable)
    ensures Known(Next(w, StaleStart(s, i), disposable))
  {
    StaleIsMine(w, s, i, disposable);
    CallKnown(w, Call(i, s, false), Next(w, StaleStart(s, i), disposable));
  }

  lemma DestroyNextKnown(w: World, s: ScopeId, disposable: Item -> bool)
    requires WellFormed(w) && Known(w) && Enabled(w, DestroyNext(s), disposable) && ViewOk(ViewOf(w, s), disposable)
    ensures Known(Next(w, DestroyNext(s), disposable))
  {
    var c := Call(NextItem(w.scopes[s].phase, disposable), s, true);
    assert c.item in w.home by { NextIsMine(w, s, disposable); }
    CallKnown(w, c, Next(w, DestroyNext(s), disposable));
  }

  lemma SettleKnown(w: World, step: Step, disposable: Item -> bool)
    requires WellFormed(w) && Known(w) && Enabled(w, step, disposable) && (step.StaleSettle? || step.DestroySettled?)
    ensures Known(Next(w, step, disposable))
  {
    match step
    case StaleSettle(s, i, _) => FailureKnown(w, Call(i, s, false), Next(w, step, disposable));
    case DestroySettled(s, _) =>
      var c := Call(CurrentItem(w.scopes[s].phase, disposable), s, true);
      FailureKnown(w, c, Next(w, step, disposable));
  }

  lemma OverrideKnown(w: World, s: ScopeId, drops: set<Item>)
    requires WellFormed(w) && Known(w)
    ensures Known(AfterOverride(w, s, drops))
  {
  }

  lemma SameKnown(w: World, w': World)
    requires Known(w) && w'.scopes.Keys == w.scopes.Keys
    requires w'.home == w.home && w'.hits == w.hits && w'.log == w.log && w'.failed == w.failed
    ensures Known(w')
  {
  }

  lemma CallKnown(w: World, c: Call, w': World)
    requires Known(w) && c.item in w.home && c.scope in w.scopes && w'.scopes.Keys == w.scopes.Keys
    requires w'.home == w.home && w'.hits == w.hits && w'.failed == w.failed
    requires w'.log == w.log || w'.log == w.log + [c]
    ensures Known(w')
  {
  }

  lemma FailureKnown(w: World, c: Call, w': World)
    requires Known(w) && c.scope in w.scopes && w'.scopes.Keys == w.scopes.Keys
    requires w'.home == w.home && w'.hits == w.hits && w'.log == w.log
    requires w'.failed == w.failed || w'.failed == w.failed + [c]
    ensures Known(w')
  {
  }

  lemma OverrideInTime(w: World, s: ScopeId, drops: set<Item>, x: ScopeId)
    requires WellFormed(w) && x in w.scopes && RetiredInTime(w, x)
    ensures RetiredInTime(AfterOverride(w, s, drops), x)
  {
    var st := w.scopes[x];
    assert Entries(st) == [] ==> Drop(st, drops).cache == [] && Drop(st, drops).multiCache == [];
  }

  lemma RootBeginInTime(w: World, x: ScopeId)
    requires WellFormed(w) && w.scopes[0].phase.Live? && x in w.scopes && RetiredInTime(w, x)
    ensures RetiredInTime(AfterRootBegin(w), x)
  {
  }

  lemma QuietInTime(w: World, s: ScopeId, st: ScopeState, log: seq<Call>, x: ScopeId)
    requires 0 in w.scopes && s in w.scopes && x in w.scopes && RetiredInTime(w, x)
    requires s != 0 && x == s ==> InTime(st, RootTurn(w), NeverUsed(w, s))
    requires s == 0 && x != 0 && RootTurn(With(w, s, st, log)) && !RootTurn(w) ==> !w.scopes[x].tracked
    ensures RetiredInTime(With(w, s, st, log), x)
  {
  }

  lemma EnterInTime(w: World, s: ScopeId, i: Item, multi: bool, x: ScopeId, disposable: Item -> bool)
    requires WellFormed(w) && Enabled(w, Enter(s, i, multi), disposable) && x in w.scopes && RetiredInTime(w, x)
    ensures RetiredInTime(Next(w, Enter(s, i, multi), disposable), x)
  {
    UsableIsLive(w, s);
    var w' := Next(w, Enter(s, i, multi), disposable);
    if x != s && NeverUsed(w, x) {
      assert NeverUsed(w', x);
    }
  }

  lemma CreateInTime(w: World, s: ScopeId, p: ScopeId, x: ScopeId, disposable: Item -> bool)
    requires WellFormed(w) && Known(w) && Enabled(w, CreateScope(s, p), disposable)
    requires x == s || (x in w.scopes && RetiredInTime(w, x))
    ensures RetiredInTime(Next(w, CreateScope(s, p), disposable), x)
  {
    UsableIsLive(w, p);
  }

  lemma StepInTime(w: World, step: Step, x: ScopeId, disposable: Item -> bool)
    requires WellFormed(w) && Known(w) && Enabled(w, step, disposable) && x in Next(w, step, disposable).scopes
    requires x in w.scopes ==> RetiredInTime(w, x)
    ensures 0 in Next(w, step, disposable).scopes && RetiredInTime(Next(w, step, disposable), x)
  {
    match step
    case CreateScope(s, p) => CreateInTime(w, s, p, x, disposable);
    case Enter(s, i, multi) => EnterInTime(w, s, i, multi, x, disposable);
    case Override(s, drops) => OverrideInTime(w, s, drops, x);
    case BeginDispose(s) =>
      if s == 0 { RootBeginInTime(w, x); } else { QuietInTime(w, s, Begin(w.scopes[s]), w.log, x); }
    case _ => LaterInTime(w, step, x, disposable);
  }

  lemma LaterInTime(w: World, step: Step, x: ScopeId, disposable: Item -> bool)
    requires WellFormed(w) && Enabled(w, step, disposable) && x in w.scopes && RetiredInTime(w, x)
    requires !step.CreateScope? && !step.Enter? && !step.Override? && !step.BeginDispose?
    ensures 0 in Next(w, step, disposable).scopes && RetiredInTime(Next(w, step, disposable), x)
  {
    var s := if step.ScopesSettled? then 0 else step.scope;
    var w' := Next(w, step, disposable);
    assert w'.scopes == w.scopes[s := w'.scopes[s]] && w'.home == w.home;
    QuietInTime(w, s, w'.scopes[s], w'.log, x);
  }

  lemma CallKeepsOrder(log: seq<Call>, c: Call)
    requires RootLast(log) && (c.inPass && c.scope != 0 ==> forall d <- log :: d.inPass ==> d.scope != 0)
    ensures RootLast(log + [c])
  {
  }

  lemma {:induction false} PassIsRecorded(log: seq<Call>, s: ScopeId)
    requires PassOf(log, s) == []
    ensures forall c <- log :: c.inPass ==> c.scope != s
    decreases |log|
  {
    if log != [] {
      PassIsRecorded(log[..|log| - 1], s);
      assert log == log[..|log| - 1] + [log[|log| - 1]];
    }
  }

  lemma StepOrder(w: World, step: Step, disposable: Item -> bool)
    requires WellFormed(w) && Enabled(w, step, disposable) && RootLast(w.log) && ViewOk(ViewOf(w, 0), disposable)
    requires forall x <- w.scopes :: RetiredInTime(w, x)
    ensures RootLast(Next(w, step, disposable).log)
  {
    match step
    case StaleStart(s, i) => CallKeepsOrder(w.log, Call(i, s, false));
    case DestroyNext(s) =>
      var c := Call(NextItem(w.scopes[s].phase, disposable), s, true);
      if s != 0 {
        assert RetiredInTime(w, s);
        RootHasNotBegun(w, disposable);
      }
      CallKeepsOrder(w.log, c);
    case _ =>
  }

  lemma RootHasNotBegun(w: World, disposable: Item -> bool)
    requires 0 in w.scopes && ViewOk(ViewOf(w, 0), disposable) && !RootTurn(w)
    ensures forall c <- w.log :: c.inPass ==> c.scope != 0
  {
    PassIsRecorded(w.log, 0);
  }

  lemma StepKeeps(w: World, step: Step, disposable: Item -> bool)
    requires Inv(w, disposable) && Enabled(w, step, disposable)
    ensures Inv(Next(w, step, disposable), disposable)
  {
    var w' := Next(w, step, disposable);
    NextIsWellFormed(w, step, disposable);
    StepKnown(w, step, disposable);
    StepOrder(w, step, disposable);
    forall x | x in w'.scopes ensures ViewOk(ViewOf(w', x), disposable) { StepView(w, step, x, disposable); }
    forall x | x in w'.scopes ensures RetiredInTime(w', x) { StepInTime(w, step, x, disposable); }
  }

  lemma {:induction false} RunKeeps(w: World, steps: seq<Step>, disposable: Item -> bool)
    requires Inv(w, disposable) && ValidRun(w, steps, disposable)
    ensures Inv(After(w, steps, disposable), disposable)
    decreases |steps|
  {
    if steps != [] {
      StepKeeps(w, steps[0], disposable);
      RunKeeps(Next(w, steps[0], disposable), steps[1..], disposable);
    }
  }

  lemma {:induction false} ParentStays(w: World, steps: seq<Step>, x: ScopeId, disposable: Item -> bool)
    requires WellFormed(w) && ValidRun(w, steps, disposable) && x in w.scopes
    ensures x in After(w, steps, disposable).scopes
    ensures After(w, steps, disposable).scopes[x].parent == w.scopes[x].parent
    decreases |steps|
  {
    if steps != [] {
      NextIsWellFormed(w, steps[0], disposable);
      if !steps[0].CreateScope? { NextKeepsParents(w, steps[0], disposable); }
      ParentStays(Next(w, steps[0], disposable), steps[1..], x, disposable);
    }
  }

  /** A request scope has the container that created it as its parent, in every later state. */
  lemma {:induction false} CreatorIsParent(w: World, steps: seq<Step>, s: ScopeId, p: ScopeId,
                                           disposable: Item -> bool)
    requires WellFormed(w) && ValidRun(w, steps, disposable) && CreateScope(s, p) in steps
    ensures var w' := After(w, steps, disposable);
            s in w'.scopes && w'.scopes[s].parent == Some(p)
    decreases |steps|
  {
    NextIsWellFormed(w, steps[0], disposable);
    var w1 := Next(w, steps[0], disposable);
    assert steps == [steps[0]] + steps[1..];
    if steps[0] == CreateScope(s, p) {
      ParentStays(w1, steps[1..], s, disposable);
    } else {
      CreatorIsParent(w1, steps[1..], s, p, disposable);
    }
  }

  lemma ReachableInv(steps: seq<Step>, disposable: Item -> bool)
    requires ValidRun(Initial, steps, disposable)
    ensures Inv(After(Initial, steps, disposable), disposable)
  {
    InitialInv(disposable);
    RunKeeps(Initial, steps, disposable);
  }

  lemma InitialInv(disposable: Item -> bool)
    ensures Inv(Initial, disposable)
  {
    assert ViewOf(Initial, 0) == View(Initial.scopes[0], {}, map[], [], {}, [], multiset{});
  }

  // ---------- The theorems ----------

  lemma RetiredLaw(v: View, i: Item, disposable: Item -> bool)
    requires ViewOk(v, disposable) && i in v.calls && disposable(i)
    requires v.st.phase.Disposed? || Retired(v.st, false)
    ensures v.calls[i] + One(i in v.st.waiting) == (if i in v.hits then 2 else 1)
    ensures i !in v.hits ==> v.calls[i] == 1
  {
  }

  lemma SettledLaw(w: World, i: Item, disposable: Item -> bool)
    requires WellFormed(w) && Known(w) && w.scopes[0].phase.Disposed? && i in w.home && disposable(i)
    requires ViewOk(ViewOf(w, w.home[i]), disposable) && RetiredInTime(w, w.home[i])
    ensures CallsOf(w.log, i) + One(i in w.scopes[w.home[i]].waiting) == (if i in w.hits then 2 else 1)
    ensures i !in w.hits ==> CallsOf(w.log, i) == 1
  {
    RetiredLaw(ViewOf(w, w.home[i]), i, disposable);
  }

  /**
   When the root has been disposed, every disposable instance that ever entered a cache was destroyed, whichever calls
   threw: exactly once if no override dropped it from a scope whose disposal was under way, otherwise twice as soon as
   its stale task has run.
   */
  lemma DestroyedOnceUnlessHit(steps: seq<Step>, i: Item, disposable: Item -> bool)
    requires ValidRun(Initial, steps, disposable)
    requires var w := After(Initial, steps, disposable);
             0 in w.scopes && w.scopes[0].phase.Disposed? && i in w.home && disposable(i)
    ensures var w := After(Initial, steps, disposable);
            w.home[i] in w.scopes &&
            CallsOf(w.log, i) + One(i in w.scopes[w.home[i]].waiting) == (if i in w.hits then 2 else 1)
    ensures var w := After(Initial, steps, disposable); i !in w.hits ==> CallsOf(w.log, i) == 1
  {
    var w := After(Initial, steps, disposable);
    ReachableInv(steps, disposable);
    assert ViewOk(ViewOf(w, w.home[i]), disposable);
    assert RetiredInTime(w, w.home[i]);
    SettledLaw(w, i, disposable);
  }

  /** Whichever calls threw, a disposed container has empty caches, and so has a live scope once the root is. */
  lemma CachesEndEmpty(steps: seq<Step>, s: ScopeId, disposable: Item -> bool)
    requires ValidRun(Initial, steps, disposable) && s in After(Initial, steps, disposable).scopes
    ensures var w := After(Initial, steps, disposable);
            && 0 in w.scopes && (w.scopes[s].phase.Disposed? ==> Entries(w.scopes[s]) == [])
            && (w.scopes[0].phase.Disposed? && w.scopes[s].phase.Live? ==> Entries(w.scopes[s]) == [])
  {
    var w := After(Initial, steps, disposable);
    ReachableInv(steps, disposable);
    assert ViewOk(ViewOf(w, s), disposable) && RetiredInTime(w, s);
  }

  /**
   No error is lost: a disposal reports every error of its own pass in the order of the calls, and every error of a
   stale task except those left over, which belong to instances an override dropped while the disposal was under way.
   */
  lemma ErrorsAreReported(steps: seq<Step>, s: ScopeId, disposable: Item -> bool)
    requires ValidRun(Initial, steps, disposable)
    requires var w := After(Initial, steps, disposable); s in w.scopes && w.scopes[s].phase.Disposed?
    ensures var w := After(Initial, steps, disposable);
            var st := w.scopes[s];
            && st.phase.thrown == PassOf(w.failed, s)
            && multiset(st.phase.stale) + multiset(st.staleErrors) == StaleFailuresOf(w.failed, s)
            && (forall i <- st.staleErrors :: i in w.hits)
  {
    var w := After(Initial, steps, disposable);
    ReachableInv(steps, disposable);
    assert ViewOk(ViewOf(w, s), disposable);
    DisposedLaw(w, s, disposable);
  }

  lemma DisposedLaw(w: World, s: ScopeId, disposable: Item -> bool)
    requires s in w.scopes && ViewOk(ViewOf(w, s), disposable) && w.scopes[s].phase.Disposed?
    ensures var st := w.scopes[s];
            && st.phase.thrown == PassOf(w.failed, s)
            && multiset(st.phase.stale) + multiset(st.staleErrors) == StaleFailuresOf(w.failed, s)
            && (forall i <- st.staleErrors :: i in w.hits)
            && PassOf(w.log, s) == Reversed(Disposables(st.phase.entries, disposable))
  {
  }

  /** Each pass runs in reverse entry order, and the root's pass comes after those of all request scopes. */
  lemma PassesAreOrdered(steps: seq<Step>, s: ScopeId, disposable: Item -> bool)
    requires ValidRun(Initial, steps, disposable)
    requires var w := After(Initial, steps, disposable); s in w.scopes && w.scopes[s].phase.Disposed?
    ensures var w := After(Initial, steps, disposable);
            PassOf(w.log, s) == Reversed(Disposables(w.scopes[s].phase.entries, disposable)) && RootLast(w.log)
  {
    var w := After(Initial, steps, disposable);
    ReachableInv(steps, disposable);
    assert ViewOk(ViewOf(w, s), disposable);
    DisposedLaw(w, s, disposable);
  }

  // ---------- An override during a disposal ----------

  /** Two containers: the root, and scope 1 in the given state; instance 7 entered scope 1 if `entered`. */
  function Example(scope: ScopeState, entered: bool, log: seq<Call>, hits: set<Item>): World {
    World(map[0 := Initial.scopes[0], 1 := scope], if entered then map[7 := 1] else map[], log, [], hits, {},
          map[])
  }

  function Scope1(entries: seq<Item>, waiting: set<Item>, running: set<Item>, phase: Phase): ScopeState {
    ScopeState(Some(0), entries, [], true, waiting, running, [], phase)
  }

  const Unused := ScopeState(Some(0), [], [], false, {}, {}, [], Live)
  const Once: seq<Call> := [Call(7, 1, true)]
  const Twice: seq<Call> := Once + [Call(7, 1, false)]
  const Cached := Example(Scope1([7], {}, {}, Live), true, [], {})
  const Begun := Example(Scope1([7], {}, {}, AwaitingStale([7])), true, [], {})
  const Settling := Example(Scope1([7], {}, {}, Collecting([7])), true, [], {})
  const Ready := Example(Scope1([7], {}, {}, Destroying([7], 1, false, [], [])), true, [], {})
  const AwaitingOnDestroy := Example(Scope1([7], {}, {}, Destroying([7], 0, true, [], [])), true, Once, {})
  const Overridden := Example(Scope1([], {7}, {}, Destroying([7], 0, true, [], [])), true, Once, {7})
  const Done := Example(Scope1([], {}, {7}, Destroying([7], 0, true, [], [])), true, Twice, {7})

  ghost predicate LeadsToDone(w: World, steps: seq<Step>, disposable: Item -> bool) {
    WellFormed(w) && ValidRun(w, steps, disposable) && After(w, steps, disposable) == Done
  }

  lemma Before(w: World, step: Step, w': World, rest: seq<Step>, disposable: Item -> bool) returns (steps: seq<Step>)
    requires WellFormed(w) && Enabled(w, step, disposable) && Next(w, step, disposable) == w'
    requires LeadsToDone(w', rest, disposable)
    ensures LeadsToDone(w, steps, disposable)
  {
    steps := [step] + rest;
    assert steps[1..] == rest;
  }

  lemma OverrideAndStale(disposable: Item -> bool) returns (steps: seq<Step>)
    requires disposable(7)
    ensures LeadsToDone(AwaitingOnDestroy, steps, disposable)
  {
    OverrideDrops();
    steps := StaleRuns(disposable);
    steps := Before(AwaitingOnDestroy, Override(0, {7}), Overridden, steps, disposable);
  }

  lemma OverrideDrops()
    ensures WellFormed(AwaitingOnDestroy) && Usable(AwaitingOnDestroy, 0)
    ensures AfterOverride(AwaitingOnDestroy, 0, {7}) == Overridden
  {
    var w := AwaitingOnDestroy;
    assert Below(w, 0, 0) && Below(w, 1, 0);
    assert [7][1..] == [];
    assert Drop(w.scopes[1], {7}) == Overridden.scopes[1];
    assert Drop(w.scopes[0], {7}) == w.scopes[0];
    assert AfterOverride(w, 0, {7}).hits == {7};
  }

  lemma StaleRuns(disposable: Item -> bool) returns (steps: seq<Step>)
    requires disposable(7)
    ensures LeadsToDone(Overridden, steps, disposable)
  {
    assert LeadsToDone(Done, [], disposable);
    var st := Overridden.scopes[1];
    assert st.(waiting := st.waiting - {7}, running := st.running + {7}) == Done.scopes[1];
    steps := Before(Overridden, StaleStart(1, 7), Done, [], disposable);
  }

  lemma DisposalReachesOnDestroy(disposable: Item -> bool) returns (steps: seq<Step>)
    requires disposable(7)
    ensures LeadsToDone(Begun, steps, disposable)
  {
    steps := PassReachesOnDestroy(disposable);
    steps := Before(Begun, StaleDrained(1), Settling, steps, disposable);
  }

  lemma PassReachesOnDestroy(disposable: Item -> bool) returns (steps: seq<Step>)
    requires disposable(7)
    ensures LeadsToDone(Settling, steps, disposable)
  {
    assert [7][1..] == [];
    assert Disposables([7], disposable) == [7];
    steps := CallReachesOnDestroy(disposable);
    steps := Before(Settling, Collected(1), Ready, steps, disposable);
  }

  lemma CallReachesOnDestroy(disposable: Item -> bool) returns (steps: seq<Step>)
    requires disposable(7) && Disposables([7], disposable) == [7]
    ensures LeadsToDone(Ready, steps, disposable)
  {
    steps := OverrideAndStale(disposable);
    steps := Before(Ready, DestroyNext(1), AwaitingOnDestroy, steps, disposable);
  }

  lemma DisposalBegins(disposable: Item -> bool) returns (steps: seq<Step>)
    requires disposable(7)
    ensures LeadsToDone(Cached, steps, disposable)
  {
    steps := DisposalReachesOnDestroy(disposable);
    assert Entries(Cached.scopes[1]) == [7];
    steps := Before(Cached, BeginDispose(1), Begun, steps, disposable);
  }

  lemma InstanceEnters(disposable: Item -> bool) returns (steps: seq<Step>)
    requires disposable(7)
    ensures LeadsToDone(Example(Unused, false, [], {}), steps, disposable)
  {
    var w := Example(Unused, false, [], {});
    steps := DisposalBegins(disposable);
    assert Usable(w, 0) && Usable(w, 1);
    var none: seq<Item> := [];
    assert none + [7] == [7];
    assert Next(w, Enter(1, 7, false), disposable).scopes[1] == Cached.scopes[1];
    steps := Before(w, Enter(1, 7, false), Cached, steps, disposable);
  }

  lemma InstanceIsCached(disposable: Item -> bool) returns (steps: seq<Step>)
    requires disposable(7)
    ensures LeadsToDone(Initial, steps, disposable)
  {
    steps := InstanceEnters(disposable);
    assert Usable(Initial, 0);
    steps := Before(Initial, CreateScope(1, 0), Example(Unused, false, [], {}), steps, disposable);
  }

  /**
   Exactly once is not unconditional: the root may be overridden while a scope it still tracks awaits an onDestroy, and
   the entry that the override drops there is destroyed a second time by its stale task.
   */
  lemma OverrideDuringDisposalDestroysTwice(disposable: Item -> bool) returns (steps: seq<Step>)
    requires disposable(7)
    ensures ValidRun(Initial, steps, disposable)
    ensures var w := After(Initial, steps, disposable); CallsOf(w.log, 7) == 2 && 7 in w.hits
  {
    steps := InstanceIsCached(disposable);
    OneMoreCall(Once, Call(7, 1, false), 7);
    assert Once[..0] == [];
  }
}
