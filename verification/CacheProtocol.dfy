/**
 All interleavings of read-through calls, deletions, resets and plain writes against an asynchronous store.

 A store call is issued by one step, takes effect on the store at some later step and completes at a step after that,
 or it fails: a read before its answer is used, a write before or after its effect, a removal without one.
 Steps of the service are atomic segments; the store may act at any time.  While a loader function is on the
 JavaScript stack, that is, between its invocation and the return of its promise, only calls it makes itself can
 start: no pending callback can run.
 */
module CacheProtocol {
  import opened Options
  import opened CacheBookkeeping

  datatype LookupPhase = Reading | Answered(hit: bool) | LoaderOnStack(load: LoadId)
  datatype Lookup = Lookup(key: Key, generation: nat, phase: LookupPhase)

  datatype LoadPhase = OnStack | Loading | Skipping | Writing | Written | Erasing | Erased | Settling | Done

  /**
   One invocation of a loader.  `born` is the reset version when the load entered the in-flight table.  `superseded`
   records that a reset, or a deletion of the key after the loader left the stack, was issued since the invocation;
   `selfDeleted` that the key was deleted by a call made while the loader was on the stack; `spared` that a store call
   which should have removed the value of the superseded load failed.
   */
  datatype Load = Load(phase: LoadPhase, born: nat, superseded: bool, selfDeleted: bool, spared: bool)

  datatype StoreCall = Del(key: Key) | Reset | Put(key: Key)
  datatype Pending = Pending(call: StoreCall, effected: bool)
  datatype Writer = ByLoad(load: LoadId) | ByCaller

  datatype State = State(
    tables: Tables,
    stack: Option<nat>,
    lookups: map<nat, Lookup>,
    loads: map<LoadId, Load>,
    calls: map<nat, Pending>,
    store: map<Key, Writer>)

  const Init := State(EmptyTables, None, map[], map[], map[], map[])

  datatype Action =
    | RememberStart(id: nat, key: Key)
    | ReadEffect(id: nat)
    | LookupDone(id: nat, load: LoadId)
    | LookupFails(id: nat)
    | LoaderReturned
    | LoaderThrew
    | ValueArrived(load: LoadId, ttlValid: bool)
    | LoaderRejected(load: LoadId)
    | WriteEffect(load: LoadId)
    | WriteDone(load: LoadId)
    | WriteFails(load: LoadId)
    | EraseEffect(load: LoadId)
    | EraseDone(load: LoadId)
    | EraseFails(load: LoadId)
    | FinishLoad(load: LoadId)
    | Issue(id: nat, call: StoreCall)
    | CallEffect(id: nat)
    | CallDone(id: nat)
    | CallFails(id: nat)
    | Expire(key: Key)

  predicate InPhase(s: State, load: LoadId, phase: LoadPhase) {
    load in s.loads && s.loads[load].phase == phase
  }

  function SetPhase(s: State, load: LoadId, phase: LoadPhase): State
    requires load in s.loads
  {
    s.(loads := s.loads[load := s.loads[load].(phase := phase)])
  }

  /** The load learns that its write or its removal failed, and settles; `missed` if its value may be in the store. */
  function GiveUp(s: State, load: LoadId, missed: bool): State
    requires load in s.loads
  {
    SetPhase(if missed then SpareOne(s, load) else s, load, Settling)
  }

  function SpareOne(s: State, load: LoadId): State
    requires load in s.loads
  {
    s.(loads := s.loads[load := s.loads[load].(spared := s.loads[load].spared || s.loads[load].superseded)])
  }

  /** A removal that fails spares the superseded loads it was meant for. */
  function Spare(s: State, call: StoreCall): map<LoadId, Load> {
    map l | l in s.loads ::
      var load := s.loads[l];
      if load.superseded && (call.Reset? || (call.Del? && l in s.tables.entries && s.tables.entries[l].key == call.key))
      then load.(spared := true) else load
  }

  predicate Enabled(s: State, a: Action) {
    match a
    case RememberStart(id, _) => id !in s.lookups
    case ReadEffect(id) => id in s.lookups && s.lookups[id].phase == Reading
    case LookupDone(id, load) =>
      s.stack == None && id in s.lookups && s.lookups[id].phase.Answered? &&
      load !in s.loads && load !in s.tables.entries
    case LookupFails(id) => s.stack == None && id in s.lookups && !s.lookups[id].phase.LoaderOnStack?
    case LoaderReturned => OnStackWellFormed(s)
    case LoaderThrew => OnStackWellFormed(s)
    case ValueArrived(load, _) => s.stack == None && InPhase(s, load, Loading) && load in s.tables.entries
    case LoaderRejected(load) => s.stack == None && InPhase(s, load, Loading)
    case WriteEffect(load) => InPhase(s, load, Writing) && load in s.tables.entries
    case WriteDone(load) =>
      s.stack == None && (InPhase(s, load, Written) || InPhase(s, load, Skipping)) && load in s.tables.entries
    case WriteFails(load) => s.stack == None && (InPhase(s, load, Writing) || InPhase(s, load, Written))
    case EraseEffect(load) => InPhase(s, load, Erasing) && load in s.tables.entries
    case EraseDone(load) => s.stack == None && InPhase(s, load, Erased)
    case EraseFails(load) => s.stack == None && InPhase(s, load, Erasing)
    case FinishLoad(load) => s.stack == None && InPhase(s, load, Settling) && load in s.tables.entries
    case Issue(id, call) =>
      id !in s.calls &&
      (call.Del? && call.key in s.tables.inflight ==> s.tables.inflight[call.key] in s.tables.entries)
    case CallEffect(id) => id in s.calls && !s.calls[id].effected
    case CallDone(id) => s.stack == None && id in s.calls && s.calls[id].effected
    case CallFails(id) => s.stack == None && id in s.calls && !s.calls[id].effected
    case Expire(_) => true
  }

  predicate OnStackWellFormed(s: State) {
    s.stack.Some? && s.stack.value in s.lookups && s.lookups[s.stack.value].phase.LoaderOnStack? &&
    s.lookups[s.stack.value].phase.load in s.loads
  }

  /**
   A deletion supersedes every load of its key, a reset every load; deletions made by a loader on the stack are kept
   apart.
   */
  function Supersede(s: State, call: StoreCall): map<LoadId, Load> {
    map l | l in s.loads ::
      var load := s.loads[l];
      if call.Reset? then load.(superseded := true)
      else if call.Del? && l in s.tables.entries && s.tables.entries[l].key == call.key then
        if load.phase == OnStack then load.(selfDeleted := true) else load.(superseded := true)
      else load
  }

  function Step(s: State, a: Action): State
    requires Enabled(s, a)
  {
    match a
    case RememberStart(id, key) =>
      s.(tables := BeginPending(s.tables, key, s.tables.resetVersion),
         lookups := s.lookups[id := Lookup(key, s.tables.resetVersion, Reading)])
    case ReadEffect(id) =>
      s.(lookups := s.lookups[id := s.lookups[id].(phase := Answered(s.lookups[id].key in s.store))])
    case LookupDone(id, load) =>
      var lookup := s.lookups[id];
      if lookup.phase.hit || lookup.key in s.tables.inflight then
        s.(tables := EndPending(s.tables, lookup.key, lookup.generation), lookups := s.lookups - {id})
      else
        s.(tables := CreateEntry(s.tables, load, lookup.key, lookup.generation),
           stack := Some(id),
           lookups := s.lookups[id := lookup.(phase := LoaderOnStack(load))],
           loads := s.loads[load := Load(OnStack, s.tables.resetVersion, false, false, false)])
    case LookupFails(id) =>
      s.(tables := EndPending(s.tables, s.lookups[id].key, s.lookups[id].generation), lookups := s.lookups - {id})
    case LoaderReturned =>
      var id := s.stack.value;
      var lookup := s.lookups[id];
      var load := lookup.phase.load;
      s.(tables := RegisterLoad(s.tables, load, lookup.key, lookup.generation),
         stack := None,
         lookups := s.lookups - {id},
         loads := s.loads[load := s.loads[load].(phase := Loading, born := s.tables.resetVersion)])
    case LoaderThrew =>
      var id := s.stack.value;
      var lookup := s.lookups[id];
      var load := lookup.phase.load;
      s.(tables := EndPending(s.tables, lookup.key, lookup.generation),
         stack := None,
         lookups := s.lookups - {id},
         loads := s.loads[load := s.loads[load].(phase := Done)])
    case ValueArrived(load, ttlValid) =>
      SetPhase(s, load, if !StillCurrent(s.tables, load) then Settling else if ttlValid then Writing else Skipping)
    case LoaderRejected(load) => SetPhase(s, load, Settling)
    case WriteEffect(load) =>
      SetPhase(s.(store := s.store[s.tables.entries[load].key := ByLoad(load)]), load, Written)
    case WriteDone(load) => SetPhase(s, load, if StillCurrent(s.tables, load) then Settling else Erasing)
    case WriteFails(load) => GiveUp(s, load, s.loads[load].phase == Written)
    case EraseEffect(load) => SetPhase(s.(store := s.store - {s.tables.entries[load].key}), load, Erased)
    case EraseDone(load) => SetPhase(s, load, Settling)
    case EraseFails(load) => GiveUp(s, load, true)
    case FinishLoad(load) => SetPhase(s.(tables := Finish(s.tables, load)), load, Done)
    case Issue(id, call) =>
      s.(tables := if call.Del? then NoteDeletion(s.tables, call.key)
                   else if call.Reset? then NoteReset(s.tables) else s.tables,
         loads := Supersede(s, call),
         calls := s.calls[id := Pending(call, false)])
    case CallEffect(id) =>
      var call := s.calls[id].call;
      s.(calls := s.calls[id := Pending(call, true)],
         store := match call
                  case Del(key) => s.store - {key}
                  case Reset => map[]
                  case Put(key) => s.store[key := ByCaller])
    case CallDone(id) => s.(calls := s.calls - {id})
    case CallFails(id) => s.(calls := s.calls - {id}, loads := Spare(s, s.calls[id].call))
    case Expire(key) => s.(store := s.store - {key})
  }

  /** The state a schedule leads to, if every action of it was possible. */
  function Run(actions: seq<Action>): Option<State> {
    if actions == [] then Some(Init)
    else
      var before := Run(actions[..|actions| - 1]);
      var a := actions[|actions| - 1];
      if before.None? || !Enabled(before.value, a) then None else Some(Step(before.value, a))
  }

  // ---------- The inductive invariant ----------

  predicate Alive(phase: LoadPhase) { phase != OnStack && phase != Done }

  ghost predicate LoadsTracked(s: State) {
    && s.loads.Keys == s.tables.entries.Keys
    && forall l <- s.loads :: s.tables.entries[l].generation <= s.loads[l].born <= s.tables.resetVersion
  }

  /** The in-flight table holds exactly the running loads that were registered since the last reset. */
  ghost predicate InflightExact(s: State) {
    && (forall k <- s.tables.inflight ::
         var l := s.tables.inflight[k];
         l in s.loads && l in s.tables.entries && s.tables.entries[l].key == k &&
         Alive(s.loads[l].phase) && s.loads[l].born == s.tables.resetVersion)
    && (forall l <- s.loads ::
         l in s.tables.entries && Alive(s.loads[l].phase) && s.loads[l].born == s.tables.resetVersion
         ==> s.tables.entries[l].key in s.tables.inflight && s.tables.inflight[s.tables.entries[l].key] == l)
  }

  ghost predicate StackExact(s: State) {
    && (forall l <- s.loads :: s.loads[l].phase == OnStack ==>
         s.stack.Some? && s.stack.value in s.lookups && s.lookups[s.stack.value].phase == LoaderOnStack(l))
    && (forall id <- s.lookups :: s.lookups[id].phase.LoaderOnStack? ==> s.stack == Some(id))
    && (s.stack.Some? ==>
         var id := s.stack.value;
         id in s.lookups && s.lookups[id].phase.LoaderOnStack? &&
         s.lookups[id].key !in s.tables.inflight &&
         var l := s.lookups[id].phase.load;
         l in s.loads && s.loads[l].phase == OnStack && l in s.tables.entries &&
         s.tables.entries[l].key == s.lookups[id].key && s.tables.entries[l].generation == s.lookups[id].generation)
  }

  predicate Unchecked(phase: LoadPhase) { phase in {OnStack, Loading, Skipping, Writing, Written} }

  /** Until its final check, a superseded load can still see that it was superseded. */
  ghost predicate SupersededIsSeen(s: State) {
    forall l <- s.loads ::
      l in s.tables.entries && s.loads[l].superseded && Unchecked(s.loads[l].phase) ==> !StillCurrent(s.tables, l)
  }

  ghost predicate TablesInv(s: State) {
    LoadsTracked(s) && InflightExact(s) && StackExact(s) && SupersededIsSeen(s)
  }

  predicate Removes(p: Pending, key: Key) {
    !p.effected && (p.call == Del(key) || p.call == Reset)
  }

  ghost predicate RemovalOutstanding(s: State, key: Key) {
    exists id <- s.calls :: Removes(s.calls[id], key)
  }

  /** A superseded value that reached the store has been spared or still has somebody on the way to remove it. */
  ghost predicate StoreClean(s: State) {
    forall k <- s.store :: s.store[k].ByLoad? ==>
      var l := s.store[k].load;
      l in s.loads && l in s.tables.entries && s.tables.entries[l].key == k &&
      s.loads[l].phase in {Written, Erasing, Settling, Done} &&
      (s.loads[l].superseded ==>
         s.loads[l].spared || s.loads[l].phase in {Written, Erasing} || RemovalOutstanding(s, k))
  }

  ghost function LookupsOf(lookups: map<nat, Lookup>, key: Key, generation: nat): set<nat> {
    set id | id in lookups && lookups[id].key == key && lookups[id].generation == generation
  }

  /** The pending-load count of a key is the number of current-generation calls inside their lookup window. */
  ghost predicate PendingExact(t: Tables, lookups: map<nat, Lookup>) {
    && (forall id <- lookups :: lookups[id].generation <= t.resetVersion)
    && (forall k <- t.pendingLoads ::
         t.pendingLoads[k].Keys == {t.resetVersion} && t.pendingLoads[k][t.resetVersion] > 0)
    && (forall k :: PendingCount(t, k, t.resetVersion) == |LookupsOf(lookups, k, t.resetVersion)|)
  }

  ghost predicate Inv(s: State) {
    TablesInv(s) && StoreClean(s) && PendingExact(s.tables, s.lookups)
  }

  // ---------- Every step keeps it: the tables ----------

  lemma AdvanceKeepsInflight(s: State, load: LoadId, phase: LoadPhase)
    requires LoadsTracked(s) && InflightExact(s) && StackExact(s)
    requires load in s.loads && Alive(s.loads[load].phase) && Alive(phase)
    ensures LoadsTracked(SetPhase(s, load, phase)) && InflightExact(SetPhase(s, load, phase))
  {
  }

  lemma AdvanceKeepsTables(s: State, load: LoadId, phase: LoadPhase)
    requires TablesInv(s)
    requires load in s.loads && Alive(s.loads[load].phase) && Alive(phase)
    requires phase == Written ==> s.loads[load].phase == Writing
    requires phase == Writing || phase == Skipping ==> s.loads[load].phase == Loading
    requires phase != Loading
    ensures TablesInv(SetPhase(s, load, phase))
  {
    AdvanceKeepsInflight(s, load, phase);
  }

  lemma FinishKeepsInflight(s: State, load: LoadId)
    requires LoadsTracked(s) && InflightExact(s) && Enabled(s, FinishLoad(load))
    ensures InflightExact(Step(s, FinishLoad(load)))
  {
  }

  lemma FinishKeepsTables(s: State, load: LoadId)
    requires TablesInv(s) && Enabled(s, FinishLoad(load))
    ensures TablesInv(Step(s, FinishLoad(load)))
  {
    FinishKeepsInflight(s, load);
    FinishKeepsStack(s, load);
    FinishIsSeen(s, load);
  }

  lemma FinishKeepsStack(s: State, load: LoadId)
    requires LoadsTracked(s) && StackExact(s) && Enabled(s, FinishLoad(load))
    ensures LoadsTracked(Step(s, FinishLoad(load))) && StackExact(Step(s, FinishLoad(load)))
  {
  }

  lemma FinishIsSeen(s: State, load: LoadId)
    requires SupersededIsSeen(s) && Enabled(s, FinishLoad(load))
    ensures SupersededIsSeen(Step(s, FinishLoad(load)))
  {
  }

  lemma MissKeepsTables(s: State, id: nat, load: LoadId)
    requires TablesInv(s) && Enabled(s, LookupDone(id, load))
    requires !s.lookups[id].phase.hit && s.lookups[id].key !in s.tables.inflight
    requires s.lookups[id].generation <= s.tables.resetVersion
    ensures TablesInv(Step(s, LookupDone(id, load)))
  {
    MissKeepsLoads(s, id, load);
    MissKeepsStack(s, id, load);
  }

  predicate Misses(s: State, id: nat, load: LoadId) {
    Enabled(s, LookupDone(id, load)) && !s.lookups[id].phase.hit && s.lookups[id].key !in s.tables.inflight &&
    s.lookups[id].generation <= s.tables.resetVersion
  }

  lemma MissKeepsLoads(s: State, id: nat, load: LoadId)
    requires TablesInv(s) && Misses(s, id, load)
    ensures var s' := Step(s, LookupDone(id, load)); LoadsTracked(s') && InflightExact(s') && SupersededIsSeen(s')
  {
  }

  lemma MissKeepsStack(s: State, id: nat, load: LoadId)
    requires TablesInv(s) && Misses(s, id, load)
    ensures StackExact(Step(s, LookupDone(id, load)))
  {
  }

  lemma LookupKeepsTables(s: State, a: Action)
    requires TablesInv(s) && PendingExact(s.tables, s.lookups) && Enabled(s, a)
    requires a.RememberStart? || a.ReadEffect? || a.LookupDone? || a.LookupFails?
    ensures TablesInv(Step(s, a))
  {
    if a.LookupDone? && !s.lookups[a.id].phase.hit && s.lookups[a.id].key !in s.tables.inflight {
      MissKeepsTables(s, a.id, a.load);
    }
  }

  lemma LoaderReturnedKeepsTables(s: State)
    requires TablesInv(s) && Enabled(s, LoaderReturned)
    ensures TablesInv(Step(s, LoaderReturned))
  {
    LoaderReturnedKeepsLoads(s);
    LoaderReturnedKeepsStack(s);
  }

  lemma LoaderReturnedKeepsLoads(s: State)
    requires TablesInv(s) && Enabled(s, LoaderReturned)
    ensures var s' := Step(s, LoaderReturned); LoadsTracked(s') && InflightExact(s') && SupersededIsSeen(s')
  {
  }

  lemma LoaderReturnedKeepsStack(s: State)
    requires TablesInv(s) && Enabled(s, LoaderReturned)
    ensures StackExact(Step(s, LoaderReturned))
  {
  }

  lemma LoaderThrewKeepsTables(s: State)
    requires TablesInv(s) && Enabled(s, LoaderThrew)
    ensures TablesInv(Step(s, LoaderThrew))
  {
    LoaderThrewKeepsLoads(s);
    LoaderThrewKeepsStack(s);
    LoaderThrewIsSeen(s);
  }

  lemma LoaderThrewKeepsLoads(s: State)
    requires TablesInv(s) && Enabled(s, LoaderThrew)
    ensures LoadsTracked(Step(s, LoaderThrew)) && InflightExact(Step(s, LoaderThrew))
  {
  }

  lemma LoaderThrewIsSeen(s: State)
    requires SupersededIsSeen(s) && Enabled(s, LoaderThrew)
    ensures SupersededIsSeen(Step(s, LoaderThrew))
  {
  }

  lemma LoaderThrewKeepsStack(s: State)
    requires TablesInv(s) && Enabled(s, LoaderThrew)
    ensures StackExact(Step(s, LoaderThrew))
  {
  }

  /** The deletion reaches every load it supersedes: such a load is in the table or belongs to an older generation. */
  lemma DelIsSeen(s: State, id: nat, key: Key)
    requires TablesInv(s) && Enabled(s, Issue(id, Del(key)))
    ensures SupersededIsSeen(Step(s, Issue(id, Del(key))))
  {
    var s' := Step(s, Issue(id, Del(key)));
    forall l | l in s'.loads && s'.loads[l].superseded && Unchecked(s'.loads[l].phase)
      ensures !StillCurrent(s'.tables, l)
    {
      DelIsSeenBy(s, id, key, l);
    }
  }

  lemma DelIsSeenBy(s: State, id: nat, key: Key, l: LoadId)
    requires TablesInv(s) && Enabled(s, Issue(id, Del(key))) && l in s.loads
    requires Unchecked(s.loads[l].phase)
    requires Supersede(s, Del(key))[l].superseded
    ensures l in s.tables.entries && !StillCurrent(NoteDeletion(s.tables, key), l)
  {
  }

  /** The states agree on all that the in-flight table and the stack depend on: flags do not matter. */
  ghost predicate Alike(s: State, s': State) {
    && s'.stack == s.stack && s'.lookups == s.lookups
    && s'.tables.inflight == s.tables.inflight && s'.tables.resetVersion == s.tables.resetVersion
    && s'.loads.Keys == s.loads.Keys && s'.tables.entries.Keys == s.tables.entries.Keys
    && (forall l <- s.loads :: s'.loads[l].phase == s.loads[l].phase && s'.loads[l].born == s.loads[l].born)
    && (forall l <- s.tables.entries :: s'.tables.entries[l].key == s.tables.entries[l].key &&
                                        s'.tables.entries[l].generation == s.tables.entries[l].generation)
  }

  lemma AlikeKeepsInflight(s: State, s': State)
    requires LoadsTracked(s) && InflightExact(s) && Alike(s, s')
    ensures LoadsTracked(s') && InflightExact(s')
  {
  }

  lemma AlikeKeepsStack(s: State, s': State)
    requires LoadsTracked(s) && StackExact(s) && Alike(s, s')
    ensures StackExact(s')
  {
  }

  lemma DelIsAlike(s: State, id: nat, key: Key)
    requires Enabled(s, Issue(id, Del(key)))
    ensures Alike(s, Step(s, Issue(id, Del(key))))
  {
  }

  lemma DelKeepsTables(s: State, id: nat, key: Key)
    requires TablesInv(s) && Enabled(s, Issue(id, Del(key)))
    ensures TablesInv(Step(s, Issue(id, Del(key))))
  {
    var s' := Step(s, Issue(id, Del(key)));
    DelIsAlike(s, id, key);
    AlikeKeepsInflight(s, s');
    AlikeKeepsStack(s, s');
    DelIsSeen(s, id, key);
  }

  lemma ResetKeepsTables(s: State, id: nat)
    requires TablesInv(s) && Enabled(s, Issue(id, Reset))
    ensures TablesInv(Step(s, Issue(id, Reset)))
  {
  }

  lemma PutKeepsTables(s: State, id: nat, key: Key)
    requires TablesInv(s) && Enabled(s, Issue(id, Put(key)))
    ensures TablesInv(Step(s, Issue(id, Put(key))))
  {
    assert Supersede(s, Put(key)) == s.loads;
  }

  lemma StoreAloneKeepsTables(s: State, store: map<Key, Writer>, calls: map<nat, Pending>)
    requires TablesInv(s)
    ensures TablesInv(s.(store := store, calls := calls))
  {
  }

  /** Which loads were spared does not matter to the tables. */
  lemma SparingKeepsTables(s: State, loads: map<LoadId, Load>)
    requires TablesInv(s) && loads.Keys == s.loads.Keys
    requires forall l <- s.loads :: loads[l] == s.loads[l].(spared := loads[l].spared)
    ensures TablesInv(s.(loads := loads))
  {
    AlikeKeepsInflight(s, s.(loads := loads));
    AlikeKeepsStack(s, s.(loads := loads));
  }

  lemma GivingUpKeepsTables(s: State, load: LoadId, missed: bool)
    requires TablesInv(s) && load in s.loads && Alive(s.loads[load].phase)
    ensures TablesInv(GiveUp(s, load, missed))
  {
    if missed { SparingKeepsTables(s, SpareOne(s, load).loads); }
    AdvanceKeepsTables(if missed then SpareOne(s, load) else s, load, Settling);
  }

  lemma FailureKeepsTables(s: State, a: Action)
    requires TablesInv(s) && Enabled(s, a) && (a.WriteFails? || a.EraseFails? || a.CallFails?)
    ensures TablesInv(Step(s, a))
  {
    match a
    case WriteFails(load) => GivingUpKeepsTables(s, load, s.loads[load].phase == Written);
    case EraseFails(load) => GivingUpKeepsTables(s, load, true);
    case CallFails(id) =>
      SparingKeepsTables(s, Spare(s, s.calls[id].call));
      StoreAloneKeepsTables(s.(loads := Spare(s, s.calls[id].call)), s.store, s.calls - {id});
  }

  lemma LoadStepKeepsTables(s: State, a: Action)
    requires TablesInv(s) && Enabled(s, a)
    requires a.ValueArrived? || a.LoaderRejected? || a.WriteEffect? || a.WriteDone? || a.EraseEffect? || a.EraseDone?
    ensures TablesInv(Step(s, a))
  {
    var s' := Step(s, a);
    var load := a.load;
    StoreAloneKeepsTables(s, s'.store, s.calls);
    AdvanceKeepsTables(s.(store := s'.store), load, s'.loads[load].phase);
    assert s' == SetPhase(s.(store := s'.store), load, s'.loads[load].phase);
  }

  lemma StepKeepsTables(s: State, a: Action)
    requires TablesInv(s) && PendingExact(s.tables, s.lookups) && Enabled(s, a)
    ensures TablesInv(Step(s, a))
  {
    if a.Issue? {
      IssueKeepsTables(s, a.id, a.call);
    } else if a.LoaderReturned? {
      LoaderReturnedKeepsTables(s);
    } else if a.LoaderThrew? {
      LoaderThrewKeepsTables(s);
    } else if a.FinishLoad? {
      FinishKeepsTables(s, a.load);
    } else {
      OtherStepKeepsTables(s, a);
    }
  }

  lemma OtherStepKeepsTables(s: State, a: Action)
    requires TablesInv(s) && PendingExact(s.tables, s.lookups) && Enabled(s, a)
    requires !a.Issue? && !a.LoaderReturned? && !a.LoaderThrew? && !a.FinishLoad?
    ensures TablesInv(Step(s, a))
  {
    if a.RememberStart? || a.ReadEffect? || a.LookupDone? || a.LookupFails? {
      LookupKeepsTables(s, a);
    } else if a.CallEffect? || a.CallDone? || a.Expire? {
      StoreStepKeepsTables(s, a);
    } else if a.WriteFails? || a.EraseFails? || a.CallFails? {
      FailureKeepsTables(s, a);
    } else {
      LoadStepKeepsTables(s, a);
    }
  }

  lemma StoreStepKeepsTables(s: State, a: Action)
    requires TablesInv(s) && Enabled(s, a) && (a.CallEffect? || a.CallDone? || a.Expire?)
    ensures TablesInv(Step(s, a))
  {
    StoreAloneKeepsTables(s, Step(s, a).store, Step(s, a).calls);
  }

  lemma IssueKeepsTables(s: State, id: nat, call: StoreCall)
    requires TablesInv(s) && Enabled(s, Issue(id, call))
    ensures TablesInv(Step(s, Issue(id, call)))
  {
    match call
    case Del(key) => DelKeepsTables(s, id, key);
    case Reset => ResetKeepsTables(s, id);
    case Put(key) => PutKeepsTables(s, id, key);
  }

  // ---------- Every step keeps it: the store ----------

  lemma IssueKeepsStore(s: State, id: nat, call: StoreCall)
    requires LoadsTracked(s) && StoreClean(s) && Enabled(s, Issue(id, call))
    ensures StoreClean(Step(s, Issue(id, call)))
  {
    var s' := Step(s, Issue(id, call));
    forall k | k in s.store && s.store[k].ByLoad? && s'.loads[s.store[k].load].superseded
      ensures s'.loads[s.store[k].load].spared || s'.loads[s.store[k].load].phase in {Written, Erasing} ||
              RemovalOutstanding(s', k)
    {
      var l := s.store[k].load;
      if s.loads[l].superseded {
        if RemovalOutstanding(s, k) {
          var old_id :| old_id in s.calls && Removes(s.calls[old_id], k);
          assert Removes(s'.calls[old_id], k);
        }
      } else {
        assert Removes(s'.calls[id], k);
      }
    }
  }

  lemma CallStepKeepsStore(s: State, a: Action)
    requires StoreClean(s) && Enabled(s, a) && (a.CallEffect? || a.CallDone?)
    ensures StoreClean(Step(s, a))
  {
    var s' := Step(s, a);
    forall k | k in s'.store && s'.store[k].ByLoad? && RemovalOutstanding(s, k)
      ensures RemovalOutstanding(s', k)
    {
      var id :| id in s.calls && Removes(s.calls[id], k);
      assert Removes(s'.calls[id], k);
    }
  }

  /** A removal that fails is no longer outstanding, but spares the loads that relied on it. */
  lemma CallFailureKeepsStore(s: State, id: nat)
    requires StoreClean(s) && Enabled(s, CallFails(id))
    ensures StoreClean(Step(s, CallFails(id)))
  {
    var s' := Step(s, CallFails(id));
    forall k | k in s.store && s.store[k].ByLoad? && s.loads[s.store[k].load].superseded && RemovalOutstanding(s, k)
      ensures s'.loads[s.store[k].load].spared || RemovalOutstanding(s', k)
    {
      var other :| other in s.calls && Removes(s.calls[other], k);
      if other != id { assert Removes(s'.calls[other], k); }
    }
  }

  /** Lookups and finishing leave the store, the outstanding calls and what is superseded alone. */
  lemma TableStepKeepsStore(s: State, a: Action)
    requires TablesInv(s) && StoreClean(s) && Enabled(s, a)
    requires a.RememberStart? || a.ReadEffect? || a.LookupDone? || a.LookupFails?
    ensures StoreClean(Step(s, a))
  {
    var s' := Step(s, a);
    forall k ensures RemovalOutstanding(s', k) == RemovalOutstanding(s, k) {}
  }

  lemma LoaderStepKeepsStore(s: State, a: Action)
    requires TablesInv(s) && StoreClean(s) && Enabled(s, a)
    requires a.LoaderReturned? || a.LoaderThrew? || a.FinishLoad?
    ensures StoreClean(Step(s, a))
  {
    var s' := Step(s, a);
    forall k ensures RemovalOutstanding(s', k) == RemovalOutstanding(s, k) {}
  }

  /** A superseded load that completes its write is sent on to erase it. */
  lemma LoadStepKeepsStore(s: State, a: Action)
    requires LoadsTracked(s) && SupersededIsSeen(s) && StoreClean(s) && Enabled(s, a)
    requires a.ValueArrived? || a.LoaderRejected? || a.WriteEffect? || a.WriteDone? || a.EraseEffect? || a.EraseDone?
    ensures StoreClean(Step(s, a))
  {
    var s' := Step(s, a);
    forall k ensures RemovalOutstanding(s', k) == RemovalOutstanding(s, k) {}
  }

  /** A load that gives up after its write or its removal failed has been spared if it was superseded. */
  lemma FailureKeepsStore(s: State, a: Action)
    requires StoreClean(s) && Enabled(s, a) && (a.WriteFails? || a.EraseFails?)
    ensures StoreClean(Step(s, a))
  {
    var s' := Step(s, a);
    forall k ensures RemovalOutstanding(s', k) == RemovalOutstanding(s, k) {}
  }

  lemma StepKeepsStore(s: State, a: Action)
    requires TablesInv(s) && StoreClean(s) && Enabled(s, a)
    ensures StoreClean(Step(s, a))
  {
    if a.Issue? {
      IssueKeepsStore(s, a.id, a.call);
    } else if a.CallEffect? || a.CallDone? {
      CallStepKeepsStore(s, a);
    } else if a.CallFails? {
      CallFailureKeepsStore(s, a.id);
    } else if a.Expire? {
      ExpiryKeepsStore(s, a.key);
    } else {
      ServiceStepKeepsStore(s, a);
    }
  }

  lemma ExpiryKeepsStore(s: State, key: Key)
    requires StoreClean(s)
    ensures StoreClean(Step(s, Expire(key)))
  {
    assert forall k :: RemovalOutstanding(Step(s, Expire(key)), k) == RemovalOutstanding(s, k);
  }

  lemma ServiceStepKeepsStore(s: State, a: Action)
    requires TablesInv(s) && StoreClean(s) && Enabled(s, a)
    requires !a.Issue? && !a.CallEffect? && !a.CallDone? && !a.CallFails? && !a.Expire?
    ensures StoreClean(Step(s, a))
  {
    if a.RememberStart? || a.ReadEffect? || a.LookupDone? || a.LookupFails? {
      TableStepKeepsStore(s, a);
    } else if a.WriteFails? || a.EraseFails? {
      FailureKeepsStore(s, a);
    } else if a.LoaderReturned? || a.LoaderThrew? || a.FinishLoad? {
      LoaderStepKeepsStore(s, a);
    } else {
      LoadStepKeepsStore(s, a);
    }
  }

  // ---------- Every step keeps it: the pending counts ----------

  lemma BeginCountsOneMore(t: Tables, key: Key)
    requires forall k <- t.pendingLoads ::
               t.pendingLoads[k].Keys == {t.resetVersion} && t.pendingLoads[k][t.resetVersion] > 0
    ensures var t' := BeginPending(t, key, t.resetVersion);
            && (forall k <- t'.pendingLoads ::
                 t'.pendingLoads[k].Keys == {t.resetVersion} && t'.pendingLoads[k][t.resetVersion] > 0)
            && (forall k :: PendingCount(t', k, t.resetVersion)
                 == PendingCount(t, k, t.resetVersion) + if k == key then 1 else 0)
  {
  }

  lemma BeginKeepsPending(t: Tables, lookups: map<nat, Lookup>, id: nat, key: Key)
    requires PendingExact(t, lookups) && id !in lookups
    ensures PendingExact(BeginPending(t, key, t.resetVersion),
                         lookups[id := Lookup(key, t.resetVersion, Reading)])
  {
    var t' := BeginPending(t, key, t.resetVersion);
    var lookups' := lookups[id := Lookup(key, t.resetVersion, Reading)];
    var g := t.resetVersion;
    BeginCountsOneMore(t, key);
    forall k ensures PendingCount(t', k, g) == |LookupsOf(lookups', k, g)| {
      assert PendingCount(t, k, g) == |LookupsOf(lookups, k, g)|;
      OneMoreLookup(lookups, id, key, g, k);
    }
  }

  lemma OneMoreLookup(lookups: map<nat, Lookup>, id: nat, key: Key, g: nat, k: Key)
    requires id !in lookups
    ensures |LookupsOf(lookups[id := Lookup(key, g, Reading)], k, g)|
         == |LookupsOf(lookups, k, g)| + if k == key then 1 else 0
  {
    assert LookupsOf(lookups[id := Lookup(key, g, Reading)], k, g)
        == LookupsOf(lookups, k, g) + if k == key then {id} else {};
  }

  lemma EndCountsOffOne(t: Tables, key: Key, generation: nat)
    requires forall k <- t.pendingLoads ::
               t.pendingLoads[k].Keys == {t.resetVersion} && t.pendingLoads[k][t.resetVersion] > 0
    requires generation == t.resetVersion ==> key in t.pendingLoads
    ensures var t' := EndPending(t, key, generation);
            && (forall k <- t'.pendingLoads ::
                 t'.pendingLoads[k].Keys == {t.resetVersion} && t'.pendingLoads[k][t.resetVersion] > 0)
            && (forall k :: PendingCount(t', k, t.resetVersion) == PendingCount(t, k, t.resetVersion)
                 - if k == key && generation == t.resetVersion then 1 else 0)
  {
    if generation != t.resetVersion && key in t.pendingLoads {
      assert t.pendingLoads[key] - {generation} == t.pendingLoads[key];
    }
  }

  /** A call that leaves its lookup window is counted off once, and only from its own generation. */
  lemma EndKeepsPending(t: Tables, lookups: map<nat, Lookup>, id: nat)
    requires PendingExact(t, lookups) && id in lookups
    ensures PendingExact(EndPending(t, lookups[id].key, lookups[id].generation), lookups - {id})
  {
    var lookup := lookups[id];
    var g := t.resetVersion;
    var counted := lookup.generation == g;
    if counted {
      assert id in LookupsOf(lookups, lookup.key, g);
      assert PendingCount(t, lookup.key, g) == |LookupsOf(lookups, lookup.key, g)|;
    }
    EndCountsOffOne(t, lookup.key, lookup.generation);
    var t' := EndPending(t, lookup.key, lookup.generation);
    forall k ensures PendingCount(t', k, g) == |LookupsOf(lookups - {id}, k, g)| {
      assert PendingCount(t, k, g) == |LookupsOf(lookups, k, g)|;
      assert LookupsOf(lookups - {id}, k, g)
          == LookupsOf(lookups, k, g) - if k == lookup.key && counted then {id} else {};
    }
  }

  lemma RephaseKeepsPending(t: Tables, lookups: map<nat, Lookup>, id: nat, phase: LookupPhase)
    requires PendingExact(t, lookups) && id in lookups
    ensures PendingExact(t, lookups[id := lookups[id].(phase := phase)])
  {
    var lookups' := lookups[id := lookups[id].(phase := phase)];
    forall k ensures PendingCount(t, k, t.resetVersion) == |LookupsOf(lookups', k, t.resetVersion)| {
      assert LookupsOf(lookups', k, t.resetVersion) == LookupsOf(lookups, k, t.resetVersion);
    }
  }

  lemma ResetKeepsPending(t: Tables, lookups: map<nat, Lookup>)
    requires PendingExact(t, lookups)
    ensures PendingExact(NoteReset(t), lookups)
  {
    var next := t.resetVersion + 1;
    assert forall k :: LookupsOf(lookups, k, next) == {};
  }

  lemma SamePending(t: Tables, t': Tables, lookups: map<nat, Lookup>)
    requires PendingExact(t, lookups) && t'.resetVersion == t.resetVersion && t'.pendingLoads == t.pendingLoads
    ensures PendingExact(t', lookups)
  {
    forall k ensures PendingCount(t', k, t.resetVersion) == |LookupsOf(lookups, k, t.resetVersion)| {
      assert PendingCount(t, k, t.resetVersion) == |LookupsOf(lookups, k, t.resetVersion)|;
    }
  }

  lemma StepKeepsPending(s: State, a: Action)
    requires PendingExact(s.tables, s.lookups) && Enabled(s, a)
    ensures PendingExact(Step(s, a).tables, Step(s, a).lookups)
  {
    match a
    case RememberStart(id, key) => BeginKeepsPending(s.tables, s.lookups, id, key);
    case ReadEffect(id) => RephaseKeepsPending(s.tables, s.lookups, id, Step(s, a).lookups[id].phase);
    case LookupDone(id, load) =>
      if s.lookups[id].phase.hit || s.lookups[id].key in s.tables.inflight {
        EndKeepsPending(s.tables, s.lookups, id);
      } else {
        RephaseKeepsPending(s.tables, s.lookups, id, LoaderOnStack(load));
        SamePending(s.tables, Step(s, a).tables, Step(s, a).lookups);
      }
    case LookupFails(id) => EndKeepsPending(s.tables, s.lookups, id);
    case LoaderReturned =>
      EndKeepsPending(s.tables, s.lookups, s.stack.value);
      var lookup := s.lookups[s.stack.value];
      SamePending(EndPending(s.tables, lookup.key, lookup.generation), Step(s, a).tables, Step(s, a).lookups);
    case LoaderThrew => EndKeepsPending(s.tables, s.lookups, s.stack.value);
    case Issue(_, call) =>
      if call.Reset? { ResetKeepsPending(s.tables, s.lookups); }
      else { SamePending(s.tables, Step(s, a).tables, s.lookups); }
    case FinishLoad(_) => SamePending(s.tables, Step(s, a).tables, s.lookups);
    case _ =>
  }

  // ---------- Every schedule ----------

  lemma {:induction false} ReachableInv(actions: seq<Action>)
    requires Run(actions).Some?
    ensures Inv(Run(actions).value)
  {
    if actions == [] {
      assert forall k :: LookupsOf(Init.lookups, k, 0) == {};
    } else {
      var before := Run(actions[..|actions| - 1]).value;
      var a := actions[|actions| - 1];
      ReachableInv(actions[..|actions| - 1]);
      StepKeepsTables(before, a);
      StepKeepsStore(before, a);
      StepKeepsPending(before, a);
    }
  }

  /** Between two resets at most one load of a key is running, and it is the entry of the in-flight table. */
  lemma SingleFlight(actions: seq<Action>, l0: LoadId, l1: LoadId)
    requires Run(actions).Some?
    requires l0 in Run(actions).value.loads && l1 in Run(actions).value.loads
    requires var s := Run(actions).value;
             Alive(s.loads[l0].phase) && Alive(s.loads[l1].phase) &&
             s.loads[l0].born == s.loads[l1].born == s.tables.resetVersion &&
             l0 in s.tables.entries && l1 in s.tables.entries &&
             s.tables.entries[l0].key == s.tables.entries[l1].key
    ensures l0 == l1
    ensures var s := Run(actions).value;
            s.tables.entries[l0].key in s.tables.inflight && s.tables.inflight[s.tables.entries[l0].key] == l0
  {
    ReachableInv(actions);
  }

  /** A miss that finds a load of the current reset version running invokes no second loader. */
  lemma MissJoinsRunningLoad(actions: seq<Action>, id: nat, spare: LoadId, running: LoadId)
    requires Run(actions).Some? && Enabled(Run(actions).value, LookupDone(id, spare))
    requires var s := Run(actions).value;
             running in s.loads && running in s.tables.entries && Alive(s.loads[running].phase) &&
             s.loads[running].born == s.tables.resetVersion && s.tables.entries[running].key == s.lookups[id].key
    ensures Step(Run(actions).value, LookupDone(id, spare)).loads == Run(actions).value.loads
    ensures Step(Run(actions).value, LookupDone(id, spare)).stack == None
  {
    ReachableInv(actions);
  }

  /** Across any number of resets the pending count of a key is the number of its current-generation lookups. */
  lemma PendingCountIsExact(actions: seq<Action>, key: Key)
    requires Run(actions).Some?
    ensures var s := Run(actions).value;
            PendingCount(s.tables, key, s.tables.resetVersion) == |LookupsOf(s.lookups, key, s.tables.resetVersion)|
            && (key in s.tables.pendingLoads <==> LookupsOf(s.lookups, key, s.tables.resetVersion) != {})
  {
    ReachableInv(actions);
  }
}
