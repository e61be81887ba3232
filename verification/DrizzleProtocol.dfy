/**
 Transactions of a Drizzle database against a draining shutdown, as a step system.

 A plain transaction is a scope that is tracked until it settles.  A request transaction has a handle: on its own it is
 tracked until it ends; nested in a plain transaction it stops counting for the status when it ends, but stays tracked
 until the scope settles and releases the handles deferred to it.  The steps are the stretches between awaits.  The
 asynchronous context of a scope can outlive it, so a nested request transaction may also begin after its scope settled.
 */
module DrizzleProtocol {
  import opened Options

  type HandleId = nat
  type ScopeId = nat

  datatype Lifecycle = Ready | ShuttingDown | Stopped

  /** `late` records that the handle was deferred to a scope that had already settled. */
  datatype Handle = Handle(owner: Option<ScopeId>, late: bool, running: bool, statusActive: bool, tracked: bool,
                           untracked: nat, aborted: bool)

  datatype Scope = Scope(open: bool, deferred: set<HandleId>)

  /** One call of the shutdown hook: what it waits for, and whether it has called the dispose hook. */
  datatype Shutdown = Shutdown(handles: set<HandleId>, scopes: set<ScopeId>, disposed: bool)

  datatype State = State(
    handles: map<HandleId, Handle>,
    scopes: map<ScopeId, Scope>,
    statusCount: int,
    lifecycle: Lifecycle,
    shutdowns: seq<Shutdown>)

  const Initial := State(map[], map[], 0, Ready, [])

  datatype Step =
    | BeginPlain(scope: ScopeId)
    | EndPlain(scope: ScopeId)
    | BeginRequest(handle: HandleId)
    | EndRequest(handle: HandleId)
    | BeginNested(handle: HandleId, scope: ScopeId)
    | EndNested(handle: HandleId)
    | BeginShutdown
    | Dispose(shutdown: nat)
    | FinishShutdown(shutdown: nat)

  // ---------- Effects ----------

  function Tracked(s: State): set<HandleId> { set h | h in s.handles && s.handles[h].tracked }

  function Open(s: State): set<ScopeId> { set c | c in s.scopes && s.scopes[c].open }

  function Counting(handles: map<HandleId, Handle>): set<HandleId> { set h | h in handles && handles[h].statusActive }

  function MarkedInactive(h: Handle): Handle { h.(statusActive := false) }

  function Released(h: Handle): Handle { h.(statusActive := false, tracked := false, untracked := h.untracked + 1) }

  function NewHandle(owner: Option<ScopeId>, late: bool): Handle { Handle(owner, late, true, true, true, 0, false) }

  /** The handles after a scope has released those deferred to it. */
  function ReleaseAll(handles: map<HandleId, Handle>, deferred: set<HandleId>): map<HandleId, Handle> {
    map h | h in handles :: if h in deferred then Released(handles[h]) else handles[h]
  }

  function Started(s: State, h: HandleId, handle: Handle): State {
    s.(handles := s.handles[h := handle], statusCount := s.statusCount + 1)
  }

  /** The counter goes down once per handle that still counted. */
  function Lowered(s: State, gone: set<HandleId>): int {
    s.statusCount - |Counting(s.handles) * gone|
  }

  predicate Enabled(s: State, step: Step) {
    match step
    case BeginPlain(c) => s.lifecycle.Ready? && c !in s.scopes
    case EndPlain(c) => c in s.scopes && s.scopes[c].open
    case BeginRequest(h) => s.lifecycle.Ready? && h !in s.handles
    case EndRequest(h) => h in s.handles && s.handles[h].running && s.handles[h].owner.None?
    case BeginNested(h, c) => s.lifecycle.Ready? && h !in s.handles && c in s.scopes
    case EndNested(h) => h in s.handles && s.handles[h].running && s.handles[h].owner.Some?
    case BeginShutdown => true
    case Dispose(k) =>
      k < |s.shutdowns| && !s.shutdowns[k].disposed &&
      s.shutdowns[k].handles !! Tracked(s) && s.shutdowns[k].scopes !! Open(s)
    case FinishShutdown(k) => k < |s.shutdowns| && s.shutdowns[k].disposed
  }

  function Next(s: State, step: Step): State
    requires Enabled(s, step)
  {
    match step
    case BeginPlain(c) => s.(scopes := s.scopes[c := Scope(true, {})])
    case EndPlain(c) =>
      var deferred := s.scopes[c].deferred;
      s.(handles := ReleaseAll(s.handles, deferred), statusCount := Lowered(s, deferred),
         scopes := s.scopes[c := Scope(false, deferred)])
    case BeginRequest(h) => Started(s, h, NewHandle(None, false))
    case EndRequest(h) =>
      s.(handles := s.handles[h := Released(s.handles[h]).(running := false)], statusCount := Lowered(s, {h}))
    case BeginNested(h, c) =>
      Started(s, h, NewHandle(Some(c), !s.scopes[c].open)).(
        scopes := s.scopes[c := s.scopes[c].(deferred := s.scopes[c].deferred + {h})])
    case EndNested(h) =>
      s.(handles := s.handles[h := MarkedInactive(s.handles[h]).(running := false)], statusCount := Lowered(s, {h}))
    case BeginShutdown =>
      s.(lifecycle := ShuttingDown,
         handles := map h | h in s.handles ::
                      if s.handles[h].tracked then s.handles[h].(aborted := true) else s.handles[h],
         shutdowns := s.shutdowns + [Shutdown(Tracked(s), Open(s), false)])
    case Dispose(k) => s.(shutdowns := s.shutdowns[k := s.shutdowns[k].(disposed := true)])
    case FinishShutdown(_) => s.(lifecycle := Stopped)
  }

  predicate ValidRun(s: State, steps: seq<Step>)
    decreases |steps|
  {
    steps == [] || (Enabled(s, steps[0]) && ValidRun(Next(s, steps[0]), steps[1..]))
  }

  function After(s: State, steps: seq<Step>): State
    requires ValidRun(s, steps)
    decreases |steps|
  {
    if steps == [] then s else After(Next(s, steps[0]), steps[1..])
  }

  // ---------- Invariants ----------

  /** What is true of every handle: alone it is tracked while it runs, deferred while its scope is open. */
  predicate HandleOk(s: State, h: HandleId)
    requires h in s.handles
  {
    var x := s.handles[h];
    && x.untracked == (if x.tracked then 0 else 1)
    && (x.statusActive ==> x.running && x.tracked)
    && (x.running && x.tracked ==> x.statusActive)
    && (x.owner.None? ==> !x.late && x.tracked == x.running)
    && (x.owner.Some? ==> x.owner.value in s.scopes && h in s.scopes[x.owner.value].deferred)
    && (x.owner.Some? && x.late ==> x.tracked && !s.scopes[x.owner.value].open)
    && (x.owner.Some? && !x.late ==> x.tracked == s.scopes[x.owner.value].open)
    && (s.lifecycle != Ready && x.tracked ==> x.aborted) && (x.aborted ==> s.lifecycle != Ready)
  }

  predicate DeferredOk(s: State) {
    forall c <- s.scopes, h <- s.scopes[c].deferred :: h in s.handles && s.handles[h].owner == Some(c)
  }

  /** The status counter is the number of handles that count. */
  predicate CountOk(s: State) { s.statusCount == |Counting(s.handles)| }

  /** A shutdown waits for everything that is still tracked, and nothing is once its dispose hook has run. */
  predicate ShutdownsOk(s: State) {
    (s.shutdowns != [] ==> s.lifecycle != Ready) &&
    forall k | 0 <= k < |s.shutdowns| ::
      Tracked(s) <= s.shutdowns[k].handles && Open(s) <= s.shutdowns[k].scopes &&
      (s.shutdowns[k].disposed ==> Tracked(s) == {} && Open(s) == {})
  }

  predicate Inv(s: State) {
    (forall h <- s.handles :: HandleOk(s, h)) && DeferredOk(s) && CountOk(s) && ShutdownsOk(s)
  }

  // ---------- Steps keep the invariants ----------

  lemma HandlesKept(s: State, step: Step, h: HandleId)
    requires Inv(s) && Enabled(s, step) && h in Next(s, step).handles
    ensures HandleOk(Next(s, step), h)
  {
    if h in s.handles { assert HandleOk(s, h); }
    match step
    case EndPlain(c) =>
      assert DeferredOk(s);
      assert h in s.scopes[c].deferred ==> s.handles[h].owner == Some(c);
    case _ =>
  }

  lemma DeferredKept(s: State, step: Step)
    requires DeferredOk(s) && Enabled(s, step)
    ensures DeferredOk(Next(s, step))
  {
  }

  lemma Parts(a: set<HandleId>, b: set<HandleId>)
    ensures |a - b| == |a| - |a * b|
  {
    assert a == (a - b) + (a * b);
  }

  lemma ReleaseCounts(s: State, s': State, gone: set<HandleId>)
    requires CountOk(s) && s'.statusCount == Lowered(s, gone)
    requires s'.handles.Keys == s.handles.Keys
    requires forall h <- s.handles :: s'.handles[h].statusActive == (s.handles[h].statusActive && h !in gone)
    ensures CountOk(s')
  {
    assert Counting(s'.handles) == Counting(s.handles) - gone;
    Parts(Counting(s.handles), gone);
  }

  lemma StartCounts(s: State, h: HandleId, handle: Handle)
    requires CountOk(s) && h !in s.handles && handle.statusActive
    ensures CountOk(Started(s, h, handle))
  {
    assert Counting(Started(s, h, handle).handles) == Counting(s.handles) + {h};
  }

  lemma EndCounts(s: State, step: Step)
    requires CountOk(s) && Enabled(s, step) && (step.EndPlain? || step.EndRequest? || step.EndNested?)
    ensures CountOk(Next(s, step))
  {
    match step
    case EndPlain(c) => ReleaseCounts(s, Next(s, step), s.scopes[c].deferred);
    case EndRequest(h) => ReleaseCounts(s, Next(s, step), {h});
    case EndNested(h) => ReleaseCounts(s, Next(s, step), {h});
  }

  lemma CountKept(s: State, step: Step)
    requires CountOk(s) && Enabled(s, step)
    ensures CountOk(Next(s, step))
  {
    match step
    case EndPlain(_) => EndCounts(s, step);
    case EndRequest(_) => EndCounts(s, step);
    case EndNested(_) => EndCounts(s, step);
    case BeginRequest(h) => StartCounts(s, h, NewHandle(None, false));
    case BeginNested(h, c) => StartCounts(s, h, NewHandle(Some(c), !s.scopes[c].open));
    case _ => assert Counting(Next(s, step).handles) == Counting(s.handles);
  }

  lemma ShutdownsKept(s: State, step: Step)
    requires ShutdownsOk(s) && Enabled(s, step)
    ensures ShutdownsOk(Next(s, step))
  {
    var s' := Next(s, step);
    if s.shutdowns != [] || step.BeginShutdown? {
      assert Tracked(s') <= Tracked(s) && Open(s') <= Open(s);
    }
  }

  lemma StepKeeps(s: State, step: Step)
    requires Inv(s) && Enabled(s, step)
    ensures Inv(Next(s, step))
  {
    forall h | h in Next(s, step).handles ensures HandleOk(Next(s, step), h) { HandlesKept(s, step, h); }
    DeferredKept(s, step);
    CountKept(s, step);
    ShutdownsKept(s, step);
  }

  lemma {:induction false} RunKeeps(s: State, steps: seq<Step>)
    requires Inv(s) && ValidRun(s, steps)
    ensures Inv(After(s, steps))
    decreases |steps|
  {
    if steps != [] {
      StepKeeps(s, steps[0]);
      RunKeeps(Next(s, steps[0]), steps[1..]);
    }
  }

  lemma ReachableInv(steps: seq<Step>)
    requires ValidRun(Initial, steps)
    ensures Inv(After(Initial, steps))
  {
    RunKeeps(Initial, steps);
  }

  // ---------- What follows ----------

  /** The status counter equals the number of counting handles in every reachable state, so it is never negative. */
  lemma StatusCountIsExact(steps: seq<Step>)
    requires ValidRun(Initial, steps)
    ensures var s := After(Initial, steps); s.statusCount == |Counting(s.handles)| && 0 <= s.statusCount
  {
    ReachableInv(steps);
  }

  /**
   When a dispose hook runs, and at every later moment, no request transaction and no scope is tracked and none can
   start: every step that would begin one is refused.
   */
  lemma NothingActiveAtDispose(steps: seq<Step>, k: nat)
    requires ValidRun(Initial, steps)
    requires k < |After(Initial, steps).shutdowns|
    requires After(Initial, steps).shutdowns[k].disposed || Enabled(After(Initial, steps), Dispose(k))
    ensures var s := After(Initial, steps);
            && Tracked(s) == {} && Open(s) == {} && s.statusCount == 0
            && forall step: Step | step.BeginRequest? || step.BeginNested? || step.BeginPlain? :: !Enabled(s, step)
  {
    var s := After(Initial, steps);
    ReachableInv(steps);
    assert s.lifecycle != Ready;
    assert Tracked(s) <= s.shutdowns[k].handles && Open(s) <= s.shutdowns[k].scopes;
    assert Tracked(s) == {} && Open(s) == {};
    assert Counting(s.handles) == {} by {
      forall h | h in s.handles ensures !s.handles[h].statusActive {
        assert HandleOk(s, h);
        assert s.handles[h].tracked ==> h in Tracked(s);
      }
    }
  }

  /**
   A request transaction nested in an open plain transaction is tracked exactly until that transaction settles, one of
   its own until it ends, and each is untracked at most once, exactly once if it is no longer tracked.
   */
  lemma TrackedUntilSettled(steps: seq<Step>, h: HandleId)
    requires ValidRun(Initial, steps) && h in After(Initial, steps).handles
    ensures var s := After(Initial, steps);
            var x := s.handles[h];
            && x.untracked == (if x.tracked then 0 else 1)
            && (x.owner.None? ==> x.tracked == x.running)
            && (x.owner.Some? && !x.late ==> x.owner.value in s.scopes && x.tracked == s.scopes[x.owner.value].open)
            && (x.late ==> x.tracked)
            && (s.lifecycle != Ready && x.tracked ==> x.aborted) && (x.aborted ==> s.lifecycle != Ready)
  {
    ReachableInv(steps);
    assert HandleOk(After(Initial, steps), h);
  }

  lemma {:induction false} RunSnoc(s: State, steps: seq<Step>, step: Step)
    requires ValidRun(s, steps + [step])
    ensures ValidRun(s, steps) && Enabled(After(s, steps), step)
    ensures After(s, steps + [step]) == Next(After(s, steps), step)
    decreases |steps|
  {
    var all := steps + [step];
    if steps == [] {
      assert all[0] == step && all[1..] == [];
    } else {
      assert all[0] == steps[0] && all[1..] == steps[1..] + [step];
      RunSnoc(Next(s, steps[0]), steps[1..], step);
    }
  }

  lemma {:induction false} ReadyUntilShutdown(steps: seq<Step>)
    requires ValidRun(Initial, steps)
    ensures After(Initial, steps).lifecycle == Ready <==> BeginShutdown !in steps
    ensures After(Initial, steps).shutdowns == [] <==> BeginShutdown !in steps
    decreases |steps|
  {
    if steps != [] {
      var before, step := steps[..|steps| - 1], steps[|steps| - 1];
      assert steps == before + [step];
      RunSnoc(Initial, before, step);
      ReadyUntilShutdown(before);
    }
  }

  ghost predicate FinishedSince(steps: seq<Step>, i: nat) {
    i < |steps| && steps[i].FinishShutdown? && forall j | i < j < |steps| :: steps[j] != BeginShutdown
  }

  /** The database is stopped exactly if a shutdown has finished, and none has begun since. */
  lemma {:induction false} StoppedExactly(steps: seq<Step>)
    requires ValidRun(Initial, steps)
    ensures After(Initial, steps).lifecycle == Stopped <==> exists i :: FinishedSince(steps, i)
    decreases |steps|
  {
    if steps != [] {
      var n := |steps| - 1;
      var before, step := steps[..n], steps[n];
      assert steps == before + [step];
      RunSnoc(Initial, before, step);
      StoppedExactly(before);
      assert FinishedSince(steps, n) <==> step.FinishShutdown?;
      forall i: nat | i < n ensures FinishedSince(steps, i) <==> FinishedSince(before, i) && step != BeginShutdown {
        assert steps[i] == before[i] && forall j | i < j < n :: steps[j] == before[j];
      }
    }
  }

  /** Transactions start exactly until the first shutdown begins, under names not used before. */
  lemma StartsUntilShutdown(steps: seq<Step>, h: HandleId, c: ScopeId)
    requires ValidRun(Initial, steps)
    ensures var s := After(Initial, steps);
            && (Enabled(s, BeginRequest(h)) <==> BeginShutdown !in steps && h !in s.handles)
            && (Enabled(s, BeginPlain(c)) <==> BeginShutdown !in steps && c !in s.scopes)
            && (Enabled(s, BeginNested(h, c)) <==> BeginShutdown !in steps && h !in s.handles && c in s.scopes)
  {
    ReadyUntilShutdown(steps);
  }

  // ---------- Handles that come too late ----------

  predicate Finished(s: State) {
    Open(s) == {} && forall h <- s.handles :: !s.handles[h].running
  }

  /**
   Once every transaction has ended, a waiting shutdown can run its dispose hook if and only if it does not wait for a
   request transaction that began in the context of a plain transaction which had already settled.
   */
  lemma ShutdownCompletesUnlessLate(steps: seq<Step>, k: nat)
    requires ValidRun(Initial, steps)
    requires var s := After(Initial, steps); Finished(s) && k < |s.shutdowns| && !s.shutdowns[k].disposed
    ensures var s := After(Initial, steps);
            Enabled(s, Dispose(k)) <==> forall h <- s.handles :: s.handles[h].late ==> h !in s.shutdowns[k].handles
  {
    var s := After(Initial, steps);
    ReachableInv(steps);
    forall h | h in s.handles ensures s.handles[h].tracked <==> s.handles[h].late {
      assert HandleOk(s, h);
      assert s.handles[h].owner.Some? ==> s.handles[h].owner.value !in Open(s);
    }
    assert forall h <- s.handles :: s.handles[h].late ==> h in Tracked(s);
  }

  lemma {:induction false} LateStaysTracked(s: State, steps: seq<Step>, h: HandleId)
    requires Inv(s) && ValidRun(s, steps) && h in s.handles && s.handles[h].late
    ensures h in After(s, steps).handles && After(s, steps).handles[h].late && h in Tracked(After(s, steps))
    decreases |steps|
  {
    assert HandleOk(s, h);
    if steps != [] {
      StepKeeps(s, steps[0]);
      LateStaysTracked(Next(s, steps[0]), steps[1..], h);
    }
  }

  /** Such a handle is never released: a shutdown that waits for it never runs the dispose hook, whatever follows. */
  lemma LateBlocksShutdown(before: seq<Step>, steps: seq<Step>, k: nat, h: HandleId)
    requires ValidRun(Initial, before) && ValidRun(After(Initial, before), steps)
    requires var s := After(Initial, before); h in s.handles && s.handles[h].late
    requires k < |After(After(Initial, before), steps).shutdowns|
    ensures !After(After(Initial, before), steps).shutdowns[k].disposed
  {
    var s := After(Initial, before);
    ReachableInv(before);
    RunKeeps(s, steps);
    LateStaysTracked(s, steps, h);
  }

  /** And it can happen: a nested request transaction begun in the context left over from a settled transaction. */
  lemma LateHandleExists() returns (steps: seq<Step>)
    ensures ValidRun(Initial, steps) && Finished(After(Initial, steps))
    ensures 1 in After(Initial, steps).handles && After(Initial, steps).handles[1].late
  {
    var s1 := Next(Initial, BeginPlain(0));
    var s2 := Next(s1, EndPlain(0));
    var s3 := Next(s2, BeginNested(1, 0));
    var s4 := Next(s3, EndNested(1));
    assert ValidRun(s4, []) && After(s4, []) == s4;
    assert [EndNested(1)][1..] == [];
    assert ValidRun(s3, [EndNested(1)]) && After(s3, [EndNested(1)]) == s4;
    var tail2 := [BeginNested(1, 0), EndNested(1)];
    assert tail2[1..] == [EndNested(1)];
    assert ValidRun(s2, tail2) && After(s2, tail2) == s4;
    var tail1 := [EndPlain(0)] + tail2;
    assert tail1[1..] == tail2;
    assert ValidRun(s1, tail1) && After(s1, tail1) == s4;
    steps := [BeginPlain(0)] + tail1;
    assert steps[1..] == tail1;
  }
}
