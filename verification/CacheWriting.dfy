/**
 What becomes of a loaded value: a loader runs only for a call that found nothing, its value is written unless the load
 is outdated, and what a load has written it removes only when it is outdated.
 */
module CacheWriting {
  import opened Options
  import opened CacheBookkeeping
  import opened CacheProtocol
  import opened CacheFreshness
  import opened CacheStoring

  // ---------- A loader runs for a miss, and only for one ----------

  /** The read of the call took effect at r, when the store had nothing under the key. */
  ghost predicate FoundNothing(actions: seq<Action>, id: nat, key: Key, r: nat) {
    r < |actions| && actions[r] == ReadEffect(id) && Run(actions[..r]).Some? && key !in Run(actions[..r]).value.store
  }

  lemma StepAnswers(s: State, a: Action, id: nat)
    requires Enabled(s, a) && id in s.lookups && id in Step(s, a).lookups
    ensures a == ReadEffect(id) ==> Step(s, a).lookups[id].phase == Answered(s.lookups[id].key in s.store)
    ensures a != ReadEffect(id) && Step(s, a).lookups[id].phase.Answered? ==>
              s.lookups[id].phase == Step(s, a).lookups[id].phase
  {
  }

  lemma {:induction false} MissFoundNothing(actions: seq<Action>, id: nat, key: Key, i: nat) returns (r: nat)
    requires LooksUp(actions, id, key, i) && Run(actions).value.lookups[id].phase == Answered(false)
    ensures i < r && FoundNothing(actions, id, key, r)
    decreases |actions|
  {
    var n := |actions| - 1;
    var before := actions[..n];
    LookupOfCall(actions, id, key, i);
    assert i < n;
    LookupOfCall(before, id, key, i);
    StepAnswers(Run(before).value, actions[n], id);
    if actions[n] == ReadEffect(id) {
      r := n;
    } else {
      r := MissFoundNothing(before, id, key, i);
      assert before[..r] == actions[..r];
    }
  }

  /**
   On every schedule: the call a load belongs to had found nothing in the store, and when its loader was invoked no load
   of the key was running that had been registered since the last reset.
   */
  lemma LoaderRunsForMiss(actions: seq<Action>, load: LoadId, key: Key, i: nat, m: nat) returns (r: nat)
    requires Run(actions).Some? && CallOf(actions, load, key, i, m)
    ensures i < r < m && FoundNothing(actions, actions[m].id, key, r)
    ensures forall l <- Run(actions[..m]).value.loads :: !Running(Run(actions[..m]).value, l, key)
  {
    var before := actions[..m];
    LookupOfCall(before, actions[m].id, key, i);
    CreatedByMiss(actions, load, key, i, m);
    r := MissFoundNothing(before, actions[m].id, key, i);
    assert before[..r] == actions[..r];
  }

  lemma CreatedByMiss(actions: seq<Action>, load: LoadId, key: Key, i: nat, m: nat)
    requires CallOf(actions, load, key, i, m)
    requires actions[m].id in Run(actions[..m]).value.lookups
    requires Run(actions[..m]).value.lookups[actions[m].id].key == key
    ensures Run(actions[..m]).value.lookups[actions[m].id].phase == Answered(false)
    ensures forall l <- Run(actions[..m]).value.loads :: !Running(Run(actions[..m]).value, l, key)
  {
    var s := Run(actions[..m]).value;
    assert actions[..m + 1][..m] == actions[..m];
    ReachableInv(actions[..m]);
    StepCreatesLoad(s, actions[m], load);
    InflightIsRunning(s, key);
  }

  /** And such a call does invoke its loader. */
  lemma MissRunsLoader(actions: seq<Action>, id: nat, load: LoadId)
    requires Run(actions).Some? && Enabled(Run(actions).value, LookupDone(id, load))
    ensures var s := Run(actions).value;
            load in Step(s, LookupDone(id, load)).loads <==>
            s.lookups[id].phase == Answered(false) && forall l <- s.loads :: !Running(s, l, s.lookups[id].key)
  {
    ReachableInv(actions);
    InflightIsRunning(Run(actions).value, Run(actions).value.lookups[id].key);
  }

  // ---------- A current value is written and stays written ----------

  lemma OutdatedForGood(s: State, a: Action, load: LoadId)
    requires Inv(s) && Enabled(s, a) && load in s.loads
    ensures load in s.tables.entries && load in Step(s, a).tables.entries
    ensures !StillCurrent(s.tables, load) ==> !StillCurrent(Step(s, a).tables, load)
    ensures !a.Issue? ==> (StillCurrent(s.tables, load) <==> StillCurrent(Step(s, a).tables, load))
  {
    StepKeepsEntry(s, a, load);
    StepCountsResets(s, a);
  }

  /** The actions that move a load on after its loader has returned. */
  predicate About(a: Action, load: LoadId) {
    (a.ValueArrived? || a.LoaderRejected? || a.WriteEffect? || a.WriteDone? || a.WriteFails? || a.EraseEffect? ||
     a.EraseDone? || a.EraseFails? || a.FinishLoad?) && a.load == load
  }

  /** How an action moves a load that is current, or not, from one phase to another. */
  predicate Moves(a: Action, load: LoadId, p: LoadPhase, p': LoadPhase, current: bool) {
    if !About(a, load) then p' == p || (p == OnStack && p' in {Loading, Done})
    else match a
      case ValueArrived(_, ttlValid) =>
        p == Loading && p' == if !current then Settling else if ttlValid then Writing else Skipping
      case WriteEffect(_) => p == Writing && p' == Written
      case WriteDone(_) => p in {Written, Skipping} && p' == if current then Settling else Erasing
      case WriteFails(_) => p in {Writing, Written} && p' == Settling
      case EraseEffect(_) => p == Erasing && p' == Erased
      case EraseDone(_) => p == Erased && p' == Settling
      case EraseFails(_) => p == Erasing && p' == Settling
      case FinishLoad(_) => p == Settling && p' == Done
      case _ => p == Loading && p' == Settling
  }

  ghost predicate StepMoves(s: State, a: Action, load: LoadId)
    requires Enabled(s, a)
  {
    load in s.loads && load in Step(s, a).loads && load in s.tables.entries &&
    Moves(a, load, s.loads[load].phase, Step(s, a).loads[load].phase, StillCurrent(s.tables, load))
  }

  lemma StackMoves(s: State, a: Action, load: LoadId)
    requires Inv(s) && Enabled(s, a) && load in s.loads && (a.LoaderReturned? || a.LoaderThrew?)
    ensures StepMoves(s, a, load)
  {
    assert s.loads[s.lookups[s.stack.value].phase.load].phase == OnStack;
  }

  lemma CallMoves(s: State, a: Action, load: LoadId)
    requires LoadsTracked(s) && Enabled(s, a) && load in s.loads && (a.Issue? || a.CallFails?)
    ensures StepMoves(s, a, load)
  {
  }

  lemma OthersMove(s: State, a: Action, load: LoadId)
    requires LoadsTracked(s) && Enabled(s, a) && load in s.loads && !About(a, load)
    requires !a.LoaderReturned? && !a.LoaderThrew? && !a.Issue? && !a.CallFails?
    ensures StepMoves(s, a, load)
  {
    assert load in s.tables.entries;
    if a.RememberStart? || a.ReadEffect? || a.LookupDone? || a.LookupFails? {
      LookupsLeaveLoads(s, a, load);
    } else if a.CallEffect? || a.CallDone? || a.Expire? {
      assert Step(s, a).loads == s.loads;
    } else {
      OtherLoadsStay(s, a, load);
    }
  }

  lemma LookupsLeaveLoads(s: State, a: Action, load: LoadId)
    requires Enabled(s, a) && load in s.loads && (a.RememberStart? || a.ReadEffect? || a.LookupDone? || a.LookupFails?)
    ensures load in Step(s, a).loads && Step(s, a).loads[load] == s.loads[load]
  {
  }

  lemma OtherLoadsStay(s: State, a: Action, load: LoadId)
    requires Enabled(s, a) && load in s.loads && !About(a, load)
    requires !a.RememberStart? && !a.ReadEffect? && !a.LookupDone? && !a.LookupFails? && !a.CallEffect? && !a.CallDone?
    requires !a.Expire? && !a.LoaderReturned? && !a.LoaderThrew? && !a.Issue? && !a.CallFails?
    ensures load in Step(s, a).loads && Step(s, a).loads[load] == s.loads[load]
  {
  }

  lemma ArrivalMoves(s: State, a: Action, load: LoadId)
    requires LoadsTracked(s) && Enabled(s, a) && (a.ValueArrived? || a.LoaderRejected? || a.FinishLoad?)
    requires a.load == load
    ensures StepMoves(s, a, load)
  {
    assert load in s.tables.entries;
  }

  lemma WriteMoves(s: State, a: Action, load: LoadId)
    requires LoadsTracked(s) && Enabled(s, a) && (a.WriteEffect? || a.WriteDone? || a.WriteFails?) && a.load == load
    ensures StepMoves(s, a, load)
  {
    assert load in s.tables.entries;
  }

  lemma EraseMoves(s: State, a: Action, load: LoadId)
    requires LoadsTracked(s) && Enabled(s, a) && (a.EraseEffect? || a.EraseDone? || a.EraseFails?) && a.load == load
    ensures StepMoves(s, a, load)
  {
    assert load in s.tables.entries;
  }

  lemma EveryStepMoves(s: State, a: Action, load: LoadId)
    requires Inv(s) && Enabled(s, a) && load in s.loads
    ensures StepMoves(s, a, load)
  {
    if a.LoaderReturned? || a.LoaderThrew? {
      StackMoves(s, a, load);
    } else if a.Issue? || a.CallFails? {
      CallMoves(s, a, load);
    } else if !About(a, load) {
      OthersMove(s, a, load);
    } else if a.ValueArrived? || a.LoaderRejected? || a.FinishLoad? {
      ArrivalMoves(s, a, load);
    } else if a.WriteEffect? || a.WriteDone? || a.WriteFails? {
      WriteMoves(s, a, load);
    } else {
      EraseMoves(s, a, load);
    }
  }

  /**
   How far a load has got, given whether its value arrived with a valid time-to-live, was written, failed to be written,
   and was erased again.
   */
  predicate Progress(phase: LoadPhase, current: bool, arrived: bool, wrote: bool, failed: bool, erased: bool) {
    && (arrived ==> phase == Writing || (phase in {Written, Erasing, Erased} && wrote) ||
                    (phase in {Settling, Done} && (wrote || failed || !current)))
    && (erased || phase in {Erasing, Erased} ==> !current)
  }

  lemma ProgressKept(a: Action, load: LoadId, p: LoadPhase, p': LoadPhase, current: bool, current': bool,
                     arrived: bool, wrote: bool, failed: bool, erased: bool)
    requires Moves(a, load, p, p', current) && (current' ==> current)
    requires Progress(p, current, arrived, wrote, failed, erased)
    ensures Progress(p', current', arrived || a == ValueArrived(load, true), wrote || a == WriteEffect(load),
                     failed || a == WriteFails(load), erased || a == EraseEffect(load))
  {
  }

  ghost predicate ProgressOf(actions: seq<Action>, load: LoadId) {
    Run(actions).Some? && load in Run(actions).value.loads && load in Run(actions).value.tables.entries &&
    Progress(Run(actions).value.loads[load].phase, StillCurrent(Run(actions).value.tables, load),
             ValueArrived(load, true) in actions, WriteEffect(load) in actions, WriteFails(load) in actions,
             EraseEffect(load) in actions)
  }

  /** No action is about a load before it exists. */
  lemma {:induction false} NothingBefore(actions: seq<Action>, load: LoadId)
    requires Run(actions).Some? && load !in Run(actions).value.loads
    ensures forall a <- actions :: !About(a, load)
    decreases |actions|
  {
    if actions != [] {
      var before, a := actions[..|actions| - 1], actions[|actions| - 1];
      if load in Run(before).value.loads { StepKeepsLoad(Run(before).value, a, load); }
      NothingBefore(before, load);
      if About(a, load) { AboutExisting(Run(before).value, a, load); }
      assert actions == before + [a];
    }
  }

  lemma AboutExisting(s: State, a: Action, load: LoadId)
    requires Enabled(s, a) && About(a, load)
    ensures load in s.loads
  {
  }

  lemma {:induction false} EveryLoadProgresses(actions: seq<Action>, load: LoadId)
    requires Run(actions).Some? && load in Run(actions).value.loads
    ensures ProgressOf(actions, load)
    decreases |actions|
  {
    var before, a := actions[..|actions| - 1], actions[|actions| - 1];
    assert actions == before + [a];
    ReachableInv(before);
    if load in Run(before).value.loads {
      EveryLoadProgresses(before, load);
      LoadProgressesOn(before, a, load);
    } else {
      LoadBegins(before, a, load);
    }
  }

  lemma LoadProgressesOn(before: seq<Action>, a: Action, load: LoadId)
    requires ProgressOf(before, load) && Enabled(Run(before).value, a) && Inv(Run(before).value)
    ensures ProgressOf(before + [a], load)
  {
    var s := Run(before).value;
    RunSnoc(before, a);
    OutdatedForGood(s, a, load);
    EveryStepMoves(s, a, load);
    ProgressKept(a, load, s.loads[load].phase, Step(s, a).loads[load].phase, StillCurrent(s.tables, load),
                 StillCurrent(Step(s, a).tables, load), ValueArrived(load, true) in before,
                 WriteEffect(load) in before, WriteFails(load) in before, EraseEffect(load) in before);
  }

  lemma LoadBegins(before: seq<Action>, a: Action, load: LoadId)
    requires Run(before).Some? && Enabled(Run(before).value, a)
    requires load !in Run(before).value.loads && load in Step(Run(before).value, a).loads
    ensures ProgressOf(before + [a], load)
  {
    RunSnoc(before, a);
    NothingBefore(before, load);
    StepCreatesLoad(Run(before).value, a, load);
    assert Step(Run(before).value, a).loads[load].phase == OnStack;
  }

  /**
   On every schedule: when a load has settled, its value has arrived with a valid time-to-live, the load is not outdated
   and no write of it failed, then the value has been written and the load has not erased it.
   */
  lemma FreshValueIsStored(actions: seq<Action>, load: LoadId)
    requires Run(actions).Some? && load in Run(actions).value.loads && load in Run(actions).value.tables.entries
    requires Run(actions).value.loads[load].phase in {Settling, Done} && StillCurrent(Run(actions).value.tables, load)
    requires ValueArrived(load, true) in actions && WriteFails(load) !in actions
    ensures WriteEffect(load) in actions && EraseEffect(load) !in actions
  {
    EveryLoadProgresses(actions, load);
  }

  /**
   A call that nothing disturbs has its value stored: no deletion of the key and no reset follows its beginning, none is
   left over from before, the value arrives with a valid time-to-live, and no write of it fails.
   */
  lemma UndisturbedValueIsStored(actions: seq<Action>, load: LoadId, key: Key, i: nat, m: nat)
    requires Run(actions).Some? && CallOf(actions, load, key, i, m)
    requires load in Run(actions).value.loads && Run(actions).value.loads[load].phase in {Settling, Done}
    requires !DeletedSince(actions, key, i) && Run(actions[..i]).Some?
    requires key !in Run(actions[..i]).value.tables.pendingInvalidations
    requires ValueArrived(load, true) in actions && WriteFails(load) !in actions
    ensures WriteEffect(load) in actions && EraseEffect(load) !in actions
  {
    UndisturbedLoadIsCurrent(actions, load, key, i, m);
    FreshValueIsStored(actions, load);
  }

  // ---------- What the store holds ----------

  /** The action puts a value of this origin under the key. */
  predicate Writes(s: State, a: Action, key: Key, writer: Writer) {
    match a
    case WriteEffect(load) => load in s.tables.entries && s.tables.entries[load].key == key && writer == ByLoad(load)
    case CallEffect(id) => id in s.calls && s.calls[id].call == Put(key) && writer == ByCaller
    case _ => false
  }

  /** The action removes what is under the key. */
  predicate Clears(s: State, a: Action, key: Key) {
    match a
    case EraseEffect(load) => load in s.tables.entries && s.tables.entries[load].key == key
    case CallEffect(id) => id in s.calls && (s.calls[id].call == Del(key) || s.calls[id].call == Reset)
    case Expire(k) => k == key
    case _ => false
  }

  predicate Overwrites(s: State, a: Action, key: Key) {
    Writes(s, a, key, ByCaller) || (a.WriteEffect? && Writes(s, a, key, ByLoad(a.load)))
  }

  predicate Holds(s: State, key: Key, writer: Writer) { key in s.store && s.store[key] == writer }

  lemma StepStores(s: State, a: Action, key: Key, writer: Writer)
    requires Enabled(s, a)
    ensures Holds(Step(s, a), key, writer) <==>
            Writes(s, a, key, writer) || (Holds(s, key, writer) && !Clears(s, a, key) && !Overwrites(s, a, key))
  {
  }

  ghost predicate WritesAt(actions: seq<Action>, key: Key, writer: Writer, j: nat) {
    j < |actions| && Run(actions[..j]).Some? && Writes(Run(actions[..j]).value, actions[j], key, writer)
  }

  ghost predicate TouchesAt(actions: seq<Action>, key: Key, k: nat) {
    k < |actions| && Run(actions[..k]).Some? &&
    (Clears(Run(actions[..k]).value, actions[k], key) || Overwrites(Run(actions[..k]).value, actions[k], key))
  }

  ghost predicate UntouchedSince(actions: seq<Action>, key: Key, j: nat) {
    forall k: nat | j < k < |actions| :: !TouchesAt(actions, key, k)
  }

  /** The last write of the key put this value there, and nothing has removed it since. */
  ghost predicate LastWritten(actions: seq<Action>, key: Key, writer: Writer) {
    exists j :: WritesAt(actions, key, writer, j) && UntouchedSince(actions, key, j)
  }

  lemma SinceBefore(actions: seq<Action>, key: Key, writer: Writer, j: nat)
    requires j < |actions| - 1
    ensures WritesAt(actions, key, writer, j) <==> WritesAt(actions[..|actions| - 1], key, writer, j)
    ensures UntouchedSince(actions, key, j) <==>
            UntouchedSince(actions[..|actions| - 1], key, j) && !TouchesAt(actions, key, |actions| - 1)
  {
    var last := |actions| - 1;
    var before := actions[..last];
    assert before[..j] == actions[..j];
    forall k: nat | k < last ensures TouchesAt(actions, key, k) <==> TouchesAt(before, key, k) {
      assert before[..k] == actions[..k];
    }
  }

  lemma LastWrittenLater(actions: seq<Action>, key: Key, writer: Writer)
    requires actions != []
    ensures var last := |actions| - 1;
            LastWritten(actions, key, writer) <==>
            WritesAt(actions, key, writer, last) ||
            (LastWritten(actions[..last], key, writer) && !TouchesAt(actions, key, last))
  {
    var last := |actions| - 1;
    if LastWritten(actions, key, writer) && !WritesAt(actions, key, writer, last) {
      var j :| WritesAt(actions, key, writer, j) && UntouchedSince(actions, key, j);
      SinceBefore(actions, key, writer, j);
    }
    if LastWritten(actions[..last], key, writer) && !TouchesAt(actions, key, last) {
      var j: nat :| WritesAt(actions[..last], key, writer, j) && UntouchedSince(actions[..last], key, j);
      SinceBefore(actions, key, writer, j);
    }
    assert UntouchedSince(actions, key, last);
  }

  /**
   On every schedule the store holds under a key exactly what the last write of the key put there, be it of a load or of
   the caller, if nothing has removed it since: no deletion or reset that took effect, no removal by an outdated load,
   no expiry.
   */
  lemma {:induction false} StoreIsExact(actions: seq<Action>, key: Key, writer: Writer)
    requires Run(actions).Some?
    ensures Holds(Run(actions).value, key, writer) <==> LastWritten(actions, key, writer)
    decreases |actions|
  {
    if actions != [] {
      var last := |actions| - 1;
      StoreIsExact(actions[..last], key, writer);
      StepStores(Run(actions[..last]).value, actions[last], key, writer);
      LastWrittenLater(actions, key, writer);
    }
  }

  // ---------- A deletion that is left over ----------

  const Stored := [Issue(0, Put("k")), CallEffect(0), RememberStart(0, "k"), ReadEffect(0)]
  const DeletedDuringHit := Stored + [Issue(1, Del("k"))] + [CallEffect(1)] + [LookupDone(0, 0)]
  const SecondCall := DeletedDuringHit + [RememberStart(1, "k")] + [ReadEffect(1)] + [LookupDone(1, 0)]
  const Unstored := SecondCall + [LoaderReturned] + [ValueArrived(0, true)]

  /** Two calls of the caller have taken effect, a plain write and a deletion. */
  const BothCalls := map[0 := Pending(Put("k"), true), 1 := Pending(Del("k"), true)]

  /** The state with one read-through call, say, and the deletion noted. */
  function Noted(pending: map<Key, map<nat, nat>>, lookups: map<nat, Lookup>, calls: map<nat, Pending>,
                 store: map<Key, Writer>): State {
    State(Tables(0, map[], pending, map["k" := 0], map[]), None, lookups, map[], calls, store)
  }

  const OnePending := map["k" := map[0 := 1]]
  const Hit := map[0 := Lookup("k", 0, Answered(true))]

  const AfterHit := State(
    Tables(0, map[], OnePending, map[], map[]), None, Hit, map[],
    map[0 := Pending(Put("k"), true)], map["k" := ByCaller])

  lemma StoredRun()
    ensures Run(Stored) == Some(AfterHit)
  {
    var put := Init.(calls := map[0 := Pending(Put("k"), false)]);
    var effected := Init.(calls := map[0 := Pending(Put("k"), true)], store := map["k" := ByCaller]);
    Then([], Init, Issue(0, Put("k")), put);
    Then([Issue(0, Put("k"))], put, CallEffect(0), effected);
    var looking := AfterHit.(lookups := map[0 := Lookup("k", 0, Reading)]);
    assert [] + [Issue(0, Put("k"))] == [Issue(0, Put("k"))];
    assert [Issue(0, Put("k"))] + [CallEffect(0)] == [Issue(0, Put("k")), CallEffect(0)];
    Then([Issue(0, Put("k")), CallEffect(0)], effected, RememberStart(0, "k"), looking);
    assert Stored[..3] == [Issue(0, Put("k")), CallEffect(0)] + [RememberStart(0, "k")];
    Then(Stored[..3], looking, ReadEffect(0), AfterHit);
    assert Stored == Stored[..3] + [ReadEffect(0)];
  }

  const Issued := Noted(OnePending, Hit, BothCalls[1 := Pending(Del("k"), false)], map["k" := ByCaller])

  lemma DeletionIsNoted()
    ensures Enabled(AfterHit, Issue(1, Del("k"))) && Step(AfterHit, Issue(1, Del("k"))) == Issued
  {
    assert Step(AfterHit, Issue(1, Del("k"))).calls == Issued.calls;
    assert Step(AfterHit, Issue(1, Del("k"))).loads == map[];
  }

  lemma HitThenDeletedRun()
    ensures Run(Stored + [Issue(1, Del("k"))] + [CallEffect(1)]) == Some(Noted(OnePending, Hit, BothCalls, map[]))
  {
    StoredRun();
    DeletionIsNoted();
    Then(Stored, AfterHit, Issue(1, Del("k")), Issued);
    var effected := Noted(OnePending, Hit, BothCalls, map[]);
    assert Step(Issued, CallEffect(1)).calls == BothCalls && Step(Issued, CallEffect(1)).store == map[];
    Then(Stored + [Issue(1, Del("k"))], Issued, CallEffect(1), effected);
  }

  lemma DeletedDuringHitRun()
    ensures Run(DeletedDuringHit) == Some(Noted(map[], map[], BothCalls, map[]))
  {
    HitThenDeletedRun();
    var effected, ended := Noted(OnePending, Hit, BothCalls, map[]), Noted(map[], map[], BothCalls, map[]);
    assert Step(effected, LookupDone(0, 0)).lookups == map[];
    assert Step(effected, LookupDone(0, 0)).tables.pendingLoads == map[];
    Then(Stored + [Issue(1, Del("k"))] + [CallEffect(1)], effected, LookupDone(0, 0), ended);
  }

  const Reading1 := Noted(OnePending, map[1 := Lookup("k", 0, Reading)], BothCalls, map[])
  const Missed := Noted(OnePending, map[1 := Lookup("k", 0, Answered(false))], BothCalls, map[])
  const Born := State(
    Tables(0, map[], OnePending, map["k" := 0], map[0 := Entry("k", 0, true)]), Some(1),
    map[1 := Lookup("k", 0, LoaderOnStack(0))], map[0 := Load(OnStack, 0, false, false, false)], BothCalls, map[])

  lemma SecondCallRun()
    ensures Run(DeletedDuringHit + [RememberStart(1, "k")]) == Some(Reading1)
    ensures Run(DeletedDuringHit + [RememberStart(1, "k")] + [ReadEffect(1)]) == Some(Missed)
    ensures Run(SecondCall) == Some(Born)
  {
    DeletedDuringHitRun();
    var ended := Noted(map[], map[], BothCalls, map[]);
    Then(DeletedDuringHit, ended, RememberStart(1, "k"), Reading1);
    assert Step(Reading1, ReadEffect(1)).lookups == Missed.lookups;
    Then(DeletedDuringHit + [RememberStart(1, "k")], Reading1, ReadEffect(1), Missed);
    assert Step(Missed, LookupDone(1, 0)).lookups == Born.lookups;
    Then(DeletedDuringHit + [RememberStart(1, "k")] + [ReadEffect(1)], Missed, LookupDone(1, 0), Born);
  }

  lemma SecondCallBegins()
    ensures CallOf(SecondCall, 0, "k", 7, 9)
  {
    SecondCallRun();
    var started := DeletedDuringHit + [RememberStart(1, "k")];
    assert started[..|started| - 1] == DeletedDuringHit && started[7] == RememberStart(1, "k");
    assert LooksUp(started, 1, "k", 7);
    assert (started + [ReadEffect(1)])[..8] == started;
    assert LooksUp(started + [ReadEffect(1)], 1, "k", 7);
    assert SecondCall[..9] == started + [ReadEffect(1)] && SecondCall[..10] == SecondCall;
  }

  lemma UnstoredRun()
    ensures Run(Unstored).Some? && 0 in Run(Unstored).value.loads && Run(Unstored).value.loads[0].phase == Settling
  {
    SecondCallRun();
    var loading := Step(Born, LoaderReturned);
    Then(SecondCall, Born, LoaderReturned, loading);
    assert loading.loads[0].phase == Loading && loading.tables.entries == Born.tables.entries;
    Then(SecondCall + [LoaderReturned], loading, ValueArrived(0, true), Step(loading, ValueArrived(0, true)));
  }

  lemma UnstoredActions()
    ensures !DeletedSince(Unstored, "k", 7)
    ensures ValueArrived(0, true) in Unstored && WriteFails(0) !in Unstored && WriteEffect(0) !in Unstored
  {
    assert Unstored == [
      Issue(0, Put("k")), CallEffect(0), RememberStart(0, "k"), ReadEffect(0), Issue(1, Del("k")), CallEffect(1),
      LookupDone(0, 0), RememberStart(1, "k"), ReadEffect(1), LookupDone(1, 0), LoaderReturned, ValueArrived(0, true)];
    assert Unstored[11] == ValueArrived(0, true);
  }

  lemma UnstoredCall()
    ensures CallOf(Unstored, 0, "k", 7, 9)
  {
    SecondCallBegins();
    CallLonger(SecondCall + [LoaderReturned], 0, "k", 7, 9);
    CallLonger(Unstored, 0, "k", 7, 9);
  }

  /**
   A deletion is noted for a call that then finds its value after all, so no load spends the note.  The next call, which
   begins after the deletion has taken effect, loads a value that is not stored.
   */
  lemma LeftOverDeletionSkipsStore()
    ensures Run(Unstored).Some? && CallOf(Unstored, 0, "k", 7, 9) && !DeletedSince(Unstored, "k", 7)
    ensures 0 in Run(Unstored).value.loads && Run(Unstored).value.loads[0].phase == Settling
    ensures ValueArrived(0, true) in Unstored && WriteFails(0) !in Unstored && WriteEffect(0) !in Unstored
  {
    UnstoredRun();
    UnstoredCall();
    UnstoredActions();
  }
}
