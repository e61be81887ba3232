/**
 What a stored value is worth once nothing is in progress any more: it is outdated exactly when its own loader deleted
 the key, or when a store call that should have removed it failed.
 */
module CacheFreshness {
  import opened Options
  import opened CacheBookkeeping
  import opened CacheProtocol

  /** Nothing that concerns the key is in progress: no lookup, no load, no store call, no reset. */
  ghost predicate Quiescent(s: State, key: Key) {
    && (forall id <- s.lookups :: s.lookups[id].key != key)
    && (forall l <- s.loads :: l in s.tables.entries && s.tables.entries[l].key == key ==> s.loads[l].phase == Done)
    && (forall id <- s.calls :: s.calls[id].call !in {Del(key), Put(key), Reset})
  }

  predicate Invalidates(a: Action, key: Key) {
    a.Issue? && (a.call == Del(key) || a.call == Reset)
  }

  /** The j-th action deletes the key of the load, or resets the cache, after the loader was invoked. */
  ghost predicate IssuedAfterInvocation(actions: seq<Action>, load: LoadId, key: Key, j: nat) {
    j < |actions| && Invalidates(actions[j], key) &&
    Run(actions[..j]).Some? && load in Run(actions[..j]).value.loads
  }

  lemma StepKeepsKey(s: State, a: Action, load: LoadId)
    requires Enabled(s, a) && load in s.tables.entries
    ensures load in Step(s, a).tables.entries && Step(s, a).tables.entries[load].key == s.tables.entries[load].key
  {
  }

  lemma StepKeepsLoad(s: State, a: Action, load: LoadId)
    requires Enabled(s, a) && load in s.loads
    ensures load in Step(s, a).loads
  {
  }

  lemma {:induction false} LoadSurvives(actions: seq<Action>, load: LoadId, j: nat)
    requires j <= |actions| && Run(actions).Some?
    requires Run(actions[..j]).Some? && load in Run(actions[..j]).value.loads
    ensures load in Run(actions).value.loads
  {
    if j < |actions| {
      var before := actions[..|actions| - 1];
      assert before[..j] == actions[..j];
      LoadSurvives(before, load, j);
      ReachableInv(before);
      StepKeepsLoad(Run(before).value, actions[|actions| - 1], load);
    } else {
      assert actions[..j] == actions;
    }
  }

  // ---------- What the history flags of a load mean ----------

  datatype Mark = Superseded | SelfDeleted | Spared

  predicate Has(load: Load, mark: Mark) {
    match mark
    case Superseded => load.superseded
    case SelfDeleted => load.selfDeleted
    case Spared => load.spared
  }

  /** The failing store call was to remove the value of the load, or left its write unchecked. */
  predicate FailsToRemove(s: State, a: Action, load: LoadId, key: Key)
    requires load in s.loads
  {
    a == EraseFails(load) || (a == WriteFails(load) && s.loads[load].phase == Written) ||
    (a.CallFails? && a.id in s.calls && s.calls[a.id].call in {Del(key), Reset})
  }

  /** Taken in state s, the action gives the load the mark. */
  predicate Causes(s: State, a: Action, load: LoadId, key: Key, mark: Mark)
    requires load in s.loads
  {
    match mark
    case Superseded => Invalidates(a, key) && !(a.call.Del? && s.loads[load].phase == OnStack)
    case SelfDeleted => a.Issue? && a.call == Del(key) && s.loads[load].phase == OnStack
    case Spared => s.loads[load].superseded && FailsToRemove(s, a, load, key)
  }

  ghost predicate CausedAt(actions: seq<Action>, load: LoadId, key: Key, mark: Mark, j: nat) {
    j < |actions| && Run(actions[..j]).Some? && load in Run(actions[..j]).value.loads &&
    Causes(Run(actions[..j]).value, actions[j], load, key, mark)
  }

  lemma StepMarks(s: State, a: Action, load: LoadId, mark: Mark)
    requires LoadsTracked(s) && Enabled(s, a) && load in s.loads
    ensures load in Step(s, a).loads
    ensures Has(Step(s, a).loads[load], mark) <==>
              Has(s.loads[load], mark) || Causes(s, a, load, s.tables.entries[load].key, mark)
  {
    if a.Issue? {
      IssueMarks(s, a.id, a.call, load, mark);
    } else if a.CallFails? {
      FailureMarks(s, a.id, load, mark);
    } else {
      LoadStepMarks(s, a, load, mark);
    }
  }

  lemma IssueMarks(s: State, id: nat, call: StoreCall, load: LoadId, mark: Mark)
    requires LoadsTracked(s) && Enabled(s, Issue(id, call)) && load in s.loads
    ensures var after := Step(s, Issue(id, call)).loads;
            load in after &&
            (Has(after[load], mark) <==>
             Has(s.loads[load], mark) || Causes(s, Issue(id, call), load, s.tables.entries[load].key, mark))
  {
    assert Step(s, Issue(id, call)).loads == Supersede(s, call);
  }

  lemma FailureMarks(s: State, id: nat, load: LoadId, mark: Mark)
    requires LoadsTracked(s) && Enabled(s, CallFails(id)) && load in s.loads
    ensures var after := Step(s, CallFails(id)).loads;
            load in after &&
            (Has(after[load], mark) <==>
             Has(s.loads[load], mark) || Causes(s, CallFails(id), load, s.tables.entries[load].key, mark))
  {
    assert Step(s, CallFails(id)).loads == Spare(s, s.calls[id].call);
  }

  lemma LoadStepMarks(s: State, a: Action, load: LoadId, mark: Mark)
    requires LoadsTracked(s) && Enabled(s, a) && load in s.loads && !a.Issue? && !a.CallFails?
    ensures load in Step(s, a).loads
    ensures Has(Step(s, a).loads[load], mark) <==>
              Has(s.loads[load], mark) || Causes(s, a, load, s.tables.entries[load].key, mark)
  {
    if a.WriteFails? || a.EraseFails? { GivingUpMarks(s, a, load, mark); } else { OthersKeepMarks(s, a, load); }
  }

  lemma GivingUpMarks(s: State, a: Action, load: LoadId, mark: Mark)
    requires LoadsTracked(s) && Enabled(s, a) && load in s.loads && (a.WriteFails? || a.EraseFails?)
    ensures load in Step(s, a).loads
    ensures Has(Step(s, a).loads[load], mark) <==>
              Has(s.loads[load], mark) || Causes(s, a, load, s.tables.entries[load].key, mark)
  {
  }

  lemma OthersKeepMarks(s: State, a: Action, load: LoadId)
    requires Enabled(s, a) && load in s.loads && !a.Issue? && !a.CallFails? && !a.WriteFails? && !a.EraseFails?
    ensures load in Step(s, a).loads
    ensures var l, l' := s.loads[load], Step(s, a).loads[load];
            l'.superseded == l.superseded && l'.selfDeleted == l.selfDeleted && l'.spared == l.spared
  {
  }

  lemma NewLoadIsUnmarked(s: State, a: Action, load: LoadId, mark: Mark)
    requires Enabled(s, a) && load !in s.loads && load in Step(s, a).loads
    ensures !Has(Step(s, a).loads[load], mark)
  {
  }

  /** An action that gives a mark gives it for good. */
  lemma {:induction false} MarkIsRecorded(actions: seq<Action>, load: LoadId, key: Key, mark: Mark, j: nat)
    requires Run(actions).Some? && load in Run(actions).value.loads && load in Run(actions).value.tables.entries
    requires Run(actions).value.tables.entries[load].key == key && CausedAt(actions, load, key, mark, j)
    ensures Has(Run(actions).value.loads[load], mark)
  {
    var before, a := actions[..|actions| - 1], actions[|actions| - 1];
    ReachableInv(before);
    if j < |before| {
      assert before[..j] == actions[..j];
      LoadSurvives(before, load, j);
      StepKeepsKey(Run(before).value, a, load);
      MarkIsRecorded(before, load, key, mark, j);
    } else {
      assert before == actions[..j];
      StepKeepsKey(Run(before).value, a, load);
    }
    StepMarks(Run(before).value, a, load, mark);
  }

  /** Nothing else gives it. */
  lemma {:induction false} RecordedMark(actions: seq<Action>, load: LoadId, key: Key, mark: Mark) returns (j: nat)
    requires Run(actions).Some? && load in Run(actions).value.loads && load in Run(actions).value.tables.entries
    requires Run(actions).value.tables.entries[load].key == key && Has(Run(actions).value.loads[load], mark)
    ensures CausedAt(actions, load, key, mark, j)
  {
    var before, a := actions[..|actions| - 1], actions[|actions| - 1];
    var s := Run(before).value;
    ReachableInv(before);
    if load !in s.loads {
      NewLoadIsUnmarked(s, a, load, mark);
      assert false;
    } else {
      StepKeepsKey(s, a, load);
      StepMarks(s, a, load, mark);
      if Has(s.loads[load], mark) {
        j := RecordedMark(before, load, key, mark);
        assert before[..j] == actions[..j];
      } else {
        j := |before|;
        assert before == actions[..j];
      }
    }
  }

  /** On every schedule a load has a mark exactly if some action of the schedule gave it. */
  lemma MarksAreExact(actions: seq<Action>, load: LoadId, mark: Mark)
    requires Run(actions).Some? && load in Run(actions).value.loads
    ensures load in Run(actions).value.tables.entries
    ensures var key := Run(actions).value.tables.entries[load].key;
            Has(Run(actions).value.loads[load], mark) <==> (exists j :: CausedAt(actions, load, key, mark, j))
  {
    ReachableInv(actions);
    var key := Run(actions).value.tables.entries[load].key;
    if Has(Run(actions).value.loads[load], mark) {
      var j := RecordedMark(actions, load, key, mark);
    }
    forall j | CausedAt(actions, load, key, mark, j) ensures Has(Run(actions).value.loads[load], mark) {
      MarkIsRecorded(actions, load, key, mark, j);
    }
  }

  // ---------- The theorem ----------

  /** A deletion of the key or a reset was issued after the loader was invoked. */
  ghost predicate Outdated(actions: seq<Action>, load: LoadId, key: Key) {
    exists j :: IssuedAfterInvocation(actions, load, key, j)
  }

  /** The loader deleted its own key before it returned its promise. */
  ghost predicate DeletedByOwnLoader(actions: seq<Action>, load: LoadId, key: Key) {
    exists j :: CausedAt(actions, load, key, SelfDeleted, j)
  }

  /** The load had been superseded, and a store call that was to remove its value failed. */
  ghost predicate RemovalFailed(actions: seq<Action>, load: LoadId, key: Key) {
    exists j :: CausedAt(actions, load, key, Spared, j)
  }

  /**
   When nothing that concerns the key is in progress and the store holds a value written by a load, the value is
   outdated if and only if the load's own loader deleted the key before it returned its promise, or a store call that
   was to remove the value failed.
   */
  lemma StoredValueIsFresh(actions: seq<Action>, key: Key, load: LoadId)
    requires Run(actions).Some? && Quiescent(Run(actions).value, key)
    requires key in Run(actions).value.store && Run(actions).value.store[key] == ByLoad(load)
    ensures Outdated(actions, load, key) <==>
              DeletedByOwnLoader(actions, load, key) || RemovalFailed(actions, load, key)
  {
    ReachableInv(actions);
    MarksAreExact(actions, load, Superseded);
    MarksAreExact(actions, load, SelfDeleted);
    MarksAreExact(actions, load, Spared);
    OutdatedIsMarked(actions, key, load);
    if RemovalFailed(actions, load, key) { SparedIsSuperseded(actions, load); }
  }

  lemma OutdatedIsMarked(actions: seq<Action>, key: Key, load: LoadId)
    requires Run(actions).Some?
    ensures Outdated(actions, load, key) <==>
              (exists j :: CausedAt(actions, load, key, Superseded, j)) || DeletedByOwnLoader(actions, load, key)
  {
    forall j ensures IssuedAfterInvocation(actions, load, key, j) <==>
                     CausedAt(actions, load, key, Superseded, j) || CausedAt(actions, load, key, SelfDeleted, j) {}
  }

  lemma {:induction false} SparedIsSuperseded(actions: seq<Action>, load: LoadId)
    requires Run(actions).Some? && load in Run(actions).value.loads && Run(actions).value.loads[load].spared
    ensures Run(actions).value.loads[load].superseded
  {
    var before, a := actions[..|actions| - 1], actions[|actions| - 1];
    var s := Run(before).value;
    ReachableInv(before);
    if load !in s.loads {
      NewLoadIsUnmarked(s, a, load, Spared);
    } else {
      StepMarks(s, a, load, Spared);
      StepMarks(s, a, load, Superseded);
      if s.loads[load].spared { SparedIsSuperseded(before, load); }
    }
  }

  // ---------- Both cases are real ----------

  lemma RunSnoc(actions: seq<Action>, a: Action)
    requires Run(actions).Some? && Enabled(Run(actions).value, a)
    ensures Run(actions + [a]) == Some(Step(Run(actions).value, a))
  {
    assert (actions + [a])[..|actions + [a]| - 1] == actions;
  }

  const Invoked := [RememberStart(0, "k"), ReadEffect(0), LookupDone(0, 0)]
  const Registered := Invoked + [Issue(0, Del("k"))] + [LoaderReturned]
  const Deleted := Registered + [ValueArrived(0, true)] + [CallEffect(0)] + [CallDone(0)]
  const SelfDeleting := Deleted + [WriteEffect(0)] + [WriteDone(0)] + [FinishLoad(0)]

  /** The loader is on the stack, its entry has been built, and its lookup is still pending. */
  const AfterInvocation := State(
    Tables(0, map[], map["k" := map[0 := 1]], map[], map[0 := Entry("k", 0, false)]),
    Some(0), map[0 := Lookup("k", 0, LoaderOnStack(0))], map[0 := Load(OnStack, 0, false, false, false)], map[], map[])

  /** The loader has deleted its own key, which the pending lookup has noted. */
  const AfterOwnDeletion := State(
    Tables(0, map[], map["k" := map[0 := 1]], map["k" := 0], map[0 := Entry("k", 0, false)]),
    Some(0), map[0 := Lookup("k", 0, LoaderOnStack(0))], map[0 := Load(OnStack, 0, false, true, false)],
    map[0 := Pending(Del("k"), false)], map[])

  /** The loader deleted its own key and then returned: its entry is in the table, unmarked. */
  const AfterRegistration := State(
    Tables(0, map["k" := 0], map[], map["k" := 0], map[0 := Entry("k", 0, false)]),
    None, map[], map[0 := Load(Loading, 0, false, true, false)], map[0 := Pending(Del("k"), false)], map[])

  lemma InvokedRun()
    ensures Run(Invoked) == Some(AfterInvocation)
  {
    RunSnoc([], RememberStart(0, "k"));
    var a1 := [RememberStart(0, "k")];
    assert [] + a1 == a1;
    RunSnoc(a1, ReadEffect(0));
    var a2 := a1 + [ReadEffect(0)];
    RunSnoc(a2, LookupDone(0, 0));
    assert a2 + [LookupDone(0, 0)] == Invoked;
    var s := Run(Invoked).value;
    assert s.tables == AfterInvocation.tables && s.lookups == AfterInvocation.lookups;
    assert s.loads == AfterInvocation.loads;
  }

  lemma RegisteredRun()
    ensures Run(Invoked).Some? && 0 in Run(Invoked).value.loads
    ensures Run(Registered) == Some(AfterRegistration)
  {
    InvokedRun();
    OwnDeletionIsIssued();
    Then(Invoked, AfterInvocation, Issue(0, Del("k")), AfterOwnDeletion);
    DeletingLoaderReturns();
    Then(Invoked + [Issue(0, Del("k"))], AfterOwnDeletion, LoaderReturned, AfterRegistration);
  }

  lemma OwnDeletionIsIssued()
    ensures Enabled(AfterInvocation, Issue(0, Del("k")))
    ensures Step(AfterInvocation, Issue(0, Del("k"))) == AfterOwnDeletion
  {
    var s := Step(AfterInvocation, Issue(0, Del("k")));
    assert s.tables == AfterOwnDeletion.tables;
    assert s.loads == AfterOwnDeletion.loads && s.calls == AfterOwnDeletion.calls;
  }

  lemma DeletingLoaderReturns()
    ensures Enabled(AfterOwnDeletion, LoaderReturned)
    ensures Step(AfterOwnDeletion, LoaderReturned) == AfterRegistration
  {
    var s := Step(AfterOwnDeletion, LoaderReturned);
    assert s.tables.pendingLoads == map[] && s.lookups == map[];
    assert s.loads == AfterRegistration.loads && s.tables.inflight == AfterRegistration.tables.inflight;
  }

  lemma DeletedRun()
    ensures Run(Deleted) == Some(SetPhase(AfterRegistration, 0, Writing).(calls := map[]))
  {
    RegisteredRun();
    RunSnoc(Registered, ValueArrived(0, true));
    var arrived := Registered + [ValueArrived(0, true)];
    RunSnoc(arrived, CallEffect(0));
    RunSnoc(arrived + [CallEffect(0)], CallDone(0));
    assert Run(Deleted).value.calls == map[] && Run(Deleted).value.store == map[];
  }

  const AfterWrite :=
    AfterRegistration.(
      calls := map[], store := map["k" := ByLoad(0)], loads := map[0 := Load(Settling, 0, false, true, false)])

  lemma WrittenRun()
    ensures Run(Deleted + [WriteEffect(0)] + [WriteDone(0)]) == Some(AfterWrite)
  {
    DeletedRun();
    RunSnoc(Deleted, WriteEffect(0));
    RunSnoc(Deleted + [WriteEffect(0)], WriteDone(0));
    var s := Run(Deleted + [WriteEffect(0)] + [WriteDone(0)]).value;
    assert s.loads == AfterWrite.loads && s.store == AfterWrite.store;
  }

  lemma FinishedRun()
    ensures Run(SelfDeleting).Some?
    ensures var s := Run(SelfDeleting).value;
            s.lookups == map[] && s.calls == map[] && s.store == map["k" := ByLoad(0)] &&
            s.loads == map[0 := Load(Done, 0, false, true, false)]
  {
    WrittenRun();
    RunSnoc(Deleted + [WriteEffect(0)] + [WriteDone(0)], FinishLoad(0));
  }

  /**
   A loader that deletes its own key before it returns its promise: the entry was built before the loader ran and is
   not yet in the in-flight table, so the deletion misses it and the outdated value stays.
   */
  lemma SelfDeletionIsMissed()
    ensures Run(SelfDeleting).Some? && Quiescent(Run(SelfDeleting).value, "k")
    ensures "k" in Run(SelfDeleting).value.store && Run(SelfDeleting).value.store["k"] == ByLoad(0)
    ensures IssuedAfterInvocation(SelfDeleting, 0, "k", 3)
  {
    RegisteredRun();
    FinishedRun();
    assert SelfDeleting[..3] == Invoked;
  }

  const Writes := Invoked + [LoaderReturned] + [ValueArrived(0, true)]
  const DeletedMeanwhile := Writes + [Issue(0, Del("k"))] + [CallEffect(0)] + [CallDone(0)]
  const ToErase := DeletedMeanwhile + [WriteEffect(0)] + [WriteDone(0)]
  const FailingToErase := ToErase + [EraseFails(0)] + [FinishLoad(0)]

  /** The only load of the key, in the given phase, with the key's entry in the in-flight table. */
  function OnlyLoad(load: Load, invalidated: bool, store: map<Key, Writer>): State {
    State(Tables(0, map["k" := 0], map[], map[], map[0 := Entry("k", 0, invalidated)]), None, map[], map[0 := load],
          map[], store)
  }

  lemma Then(actions: seq<Action>, s: State, a: Action, s': State)
    requires Run(actions) == Some(s) && Enabled(s, a) && Step(s, a) == s'
    ensures Run(actions + [a]) == Some(s')
  {
    RunSnoc(actions, a);
  }

  lemma WritesRun()
    ensures Run(Writes) == Some(OnlyLoad(Load(Writing, 0, false, false, false), false, map[]))
  {
    InvokedRun();
    LoaderReturns();
    var s := OnlyLoad(Load(Loading, 0, false, false, false), false, map[]);
    Then(Invoked, AfterInvocation, LoaderReturned, s);
    Then(Invoked + [LoaderReturned], s, ValueArrived(0, true), SetPhase(s, 0, Writing));
    assert SetPhase(s, 0, Writing).loads == map[0 := Load(Writing, 0, false, false, false)];
  }

  lemma LoaderReturns()
    ensures Enabled(AfterInvocation, LoaderReturned)
    ensures Step(AfterInvocation, LoaderReturned) == OnlyLoad(Load(Loading, 0, false, false, false), false, map[])
  {
    var s := Step(AfterInvocation, LoaderReturned);
    assert s.tables.pendingLoads == map[] && s.tables.inflight == map["k" := 0];
    assert s.lookups == map[] && s.loads == map[0 := Load(Loading, 0, false, false, false)];
  }

  lemma DeletionIsIssued()
    ensures var s := OnlyLoad(Load(Writing, 0, false, false, false), false, map[]);
            Step(s, Issue(0, Del("k"))) ==
            OnlyLoad(Load(Writing, 0, true, false, false), true, map[]).(calls := map[0 := Pending(Del("k"), false)])
  {
    var s := Step(OnlyLoad(Load(Writing, 0, false, false, false), false, map[]), Issue(0, Del("k")));
    assert s.loads == map[0 := Load(Writing, 0, true, false, false)];
    assert s.tables.entries == map[0 := Entry("k", 0, true)];
  }

  /** The load is writing a value that has been deleted, and that deletion is in the given state. */
  function Invalidated(calls: map<nat, Pending>): State {
    OnlyLoad(Load(Writing, 0, true, false, false), true, map[]).(calls := calls)
  }

  lemma DeletionRun()
    ensures Run(Writes + [Issue(0, Del("k"))]) == Some(Invalidated(map[0 := Pending(Del("k"), false)]))
  {
    WritesRun();
    DeletionIsIssued();
    Then(Writes, OnlyLoad(Load(Writing, 0, false, false, false), false, map[]), Issue(0, Del("k")),
         Invalidated(map[0 := Pending(Del("k"), false)]));
  }

  lemma DeletedMeanwhileRun()
    ensures Run(DeletedMeanwhile) == Some(Invalidated(map[]))
  {
    DeletionRun();
    var issued := Invalidated(map[0 := Pending(Del("k"), false)]);
    var effected := Invalidated(map[0 := Pending(Del("k"), true)]);
    assert Step(issued, CallEffect(0)).store == map[] && Step(issued, CallEffect(0)).calls == effected.calls;
    Then(Writes + [Issue(0, Del("k"))], issued, CallEffect(0), effected);
    assert Step(effected, CallDone(0)).calls == map[];
    Then(Writes + [Issue(0, Del("k"))] + [CallEffect(0)], effected, CallDone(0), Invalidated(map[]));
  }

  lemma ToEraseRun()
    ensures Run(ToErase) == Some(OnlyLoad(Load(Erasing, 0, true, false, false), true, map["k" := ByLoad(0)]))
  {
    DeletedMeanwhileRun();
    var s := OnlyLoad(Load(Writing, 0, true, false, false), true, map[]);
    var written := OnlyLoad(Load(Written, 0, true, false, false), true, map["k" := ByLoad(0)]);
    assert Step(s, WriteEffect(0)).loads == written.loads && Step(s, WriteEffect(0)).store == written.store;
    Then(DeletedMeanwhile, s, WriteEffect(0), written);
    assert Step(written, WriteDone(0)).loads == map[0 := Load(Erasing, 0, true, false, false)];
    Then(DeletedMeanwhile + [WriteEffect(0)], written, WriteDone(0), Step(written, WriteDone(0)));
  }

  lemma FailingToEraseRun()
    ensures Run(FailingToErase).Some?
    ensures var s := Run(FailingToErase).value;
            s.lookups == map[] && s.calls == map[] && s.store == map["k" := ByLoad(0)] &&
            s.loads == map[0 := Load(Done, 0, true, false, true)]
  {
    ToEraseRun();
    var s := OnlyLoad(Load(Erasing, 0, true, false, false), true, map["k" := ByLoad(0)]);
    var settling := OnlyLoad(Load(Settling, 0, true, false, true), true, map["k" := ByLoad(0)]);
    assert Step(s, EraseFails(0)).loads == settling.loads;
    Then(ToErase, s, EraseFails(0), settling);
    Then(ToErase + [EraseFails(0)], settling, FinishLoad(0), Step(settling, FinishLoad(0)));
    assert Step(settling, FinishLoad(0)).loads == map[0 := Load(Done, 0, true, false, true)];
  }

  /**
   A deletion during the store write sends the load on to erase what it wrote.  If that call fails, the load settles all
   the same and the outdated value stays, although the loader deleted nothing and the deletion itself succeeded.
   */
  lemma FailedRemovalIsForgotten()
    ensures Run(FailingToErase).Some? && Quiescent(Run(FailingToErase).value, "k")
    ensures "k" in Run(FailingToErase).value.store && Run(FailingToErase).value.store["k"] == ByLoad(0)
    ensures Outdated(FailingToErase, 0, "k") && !DeletedByOwnLoader(FailingToErase, 0, "k")
  {
    FailingToEraseRun();
    StoredValueIsFresh(FailingToErase, "k", 0);
    ReachableInv(FailingToErase);
    MarksAreExact(FailingToErase, 0, Superseded);
    MarksAreExact(FailingToErase, 0, SelfDeleted);
    OutdatedIsMarked(FailingToErase, "k", 0);
  }
}
