/**
 When a loaded value is stored.  A load learns that it is outdated from three sources: a reset since its call began, a
 deletion of its key while it runs, and a deletion noted for the calls that were then in their lookup.  The last kind of
 note stays until a load of the key has finished, so it can reach a call that began after the deletion.
 */
module CacheStoring {
  import opened Options
  import opened CacheBookkeeping
  import opened CacheProtocol
  import opened CacheFreshness

  // ---------- Deletions that are noted for pending lookups ----------

  /** The load is running and was registered since the last reset. */
  ghost predicate Running(s: State, load: LoadId, key: Key) {
    load in s.loads && load in s.tables.entries && s.tables.entries[load].key == key &&
    Alive(s.loads[load].phase) && s.loads[load].born == s.tables.resetVersion
  }

  /** A deletion of the key while calls are in their lookup of it and no load of it is running. */
  ghost predicate Notes(s: State, a: Action, key: Key) {
    a.Issue? && a.call == Del(key) && (forall l <- s.loads :: !Running(s, l, key)) &&
    LookupsOf(s.lookups, key, s.tables.resetVersion) != {}
  }

  /** A reset, or the end of a load of the key whose call began since the last reset. */
  predicate Spends(s: State, a: Action, key: Key) {
    (a.Issue? && a.call.Reset?) ||
    (a.FinishLoad? && a.load in s.tables.entries && s.tables.entries[a.load].key == key &&
     s.tables.entries[a.load].generation == s.tables.resetVersion)
  }

  ghost predicate NotedAt(actions: seq<Action>, key: Key, j: nat) {
    j < |actions| && Run(actions[..j]).Some? && Notes(Run(actions[..j]).value, actions[j], key)
  }

  ghost predicate SpentAt(actions: seq<Action>, key: Key, k: nat) {
    k < |actions| && Run(actions[..k]).Some? && Spends(Run(actions[..k]).value, actions[k], key)
  }

  ghost predicate UnspentFrom(actions: seq<Action>, key: Key, j: nat) {
    forall k | j < k < |actions| :: !SpentAt(actions, key, k)
  }

  /** A noted deletion of the key that no reset and no end of a load has spent since. */
  ghost predicate LeftOver(actions: seq<Action>, key: Key) {
    exists j :: NotedAt(actions, key, j) && UnspentFrom(actions, key, j)
  }

  lemma PrefixesAgree(actions: seq<Action>, key: Key, j: nat)
    requires actions != [] && j < |actions| - 1
    ensures NotedAt(actions, key, j) <==> NotedAt(actions[..|actions| - 1], key, j)
    ensures SpentAt(actions, key, j) <==> SpentAt(actions[..|actions| - 1], key, j)
  {
    assert actions[..|actions| - 1][..j] == actions[..j];
  }

  lemma LeftOverNext(actions: seq<Action>, key: Key)
    requires actions != [] && Run(actions).Some?
    ensures var before, a := actions[..|actions| - 1], actions[|actions| - 1];
            Run(before).Some? &&
            (LeftOver(actions, key) <==>
             Notes(Run(before).value, a, key) || (LeftOver(before, key) && !Spends(Run(before).value, a, key)))
  {
    var n := |actions| - 1;
    var before, a := actions[..n], actions[n];
    if Notes(Run(before).value, a, key) {
      assert NotedAt(actions, key, n) && UnspentFrom(actions, key, n);
    }
    if LeftOver(before, key) && !SpentAt(actions, key, n) { LeftOverLater(actions, key); }
    if LeftOver(actions, key) { LeftOverBefore(actions, key); }
  }

  lemma LeftOverLater(actions: seq<Action>, key: Key)
    requires actions != [] && LeftOver(actions[..|actions| - 1], key) && !SpentAt(actions, key, |actions| - 1)
    ensures LeftOver(actions, key)
  {
    var before := actions[..|actions| - 1];
    var j: nat :| NotedAt(before, key, j) && UnspentFrom(before, key, j);
    PrefixesAgree(actions, key, j);
    forall k | j < k < |actions| ensures !SpentAt(actions, key, k) {
      if k < |before| {
        PrefixesAgree(actions, key, k);
        assert !SpentAt(before, key, k);
      }
    }
    assert UnspentFrom(actions, key, j);
  }

  lemma LeftOverBefore(actions: seq<Action>, key: Key)
    requires actions != [] && Run(actions).Some? && LeftOver(actions, key)
    ensures var before, a := actions[..|actions| - 1], actions[|actions| - 1];
            Run(before).Some? &&
            (Notes(Run(before).value, a, key) || (LeftOver(before, key) && !Spends(Run(before).value, a, key)))
  {
    var j: nat :| NotedAt(actions, key, j) && UnspentFrom(actions, key, j);
    if j < |actions| - 1 { LeftOverEarlier(actions, key, j); }
  }

  lemma LeftOverEarlier(actions: seq<Action>, key: Key, j: nat)
    requires j < |actions| - 1 && Run(actions).Some? && NotedAt(actions, key, j) && UnspentFrom(actions, key, j)
    ensures LeftOver(actions[..|actions| - 1], key) && !SpentAt(actions, key, |actions| - 1)
  {
    PrefixesAgree(actions, key, j);
    UnspentBefore(actions, key, j);
  }

  lemma UnspentBefore(actions: seq<Action>, key: Key, j: nat)
    requires j < |actions| - 1 && UnspentFrom(actions, key, j)
    ensures UnspentFrom(actions[..|actions| - 1], key, j)
  {
    var before := actions[..|actions| - 1];
    forall k | j < k < |before| ensures !SpentAt(before, key, k) {
      PrefixesAgree(actions, key, k);
      assert !SpentAt(actions, key, k);
    }
  }

  /** Notes are of the present generation. */
  ghost predicate NotesCurrent(t: Tables) {
    forall k <- t.pendingInvalidations :: t.pendingInvalidations[k] == t.resetVersion
  }

  lemma StepNotes(s: State, a: Action, key: Key)
    requires Inv(s) && NotesCurrent(s.tables) && Enabled(s, a)
    ensures NotesCurrent(Step(s, a).tables)
    ensures key in Step(s, a).tables.pendingInvalidations <==>
            Notes(s, a, key) || (key in s.tables.pendingInvalidations && !Spends(s, a, key))
  {
    if a.Issue? {
      IssueNotes(s, a.id, a.call, key);
    } else if a.FinishLoad? {
      FinishNotes(s, a.load, key);
    } else {
      OthersKeepNotes(s, a);
    }
  }

  lemma OthersKeepNotes(s: State, a: Action)
    requires Enabled(s, a) && !a.Issue? && !a.FinishLoad?
    ensures Step(s, a).tables.pendingInvalidations == s.tables.pendingInvalidations
    ensures Step(s, a).tables.resetVersion == s.tables.resetVersion
  {
  }

  lemma IssueNotes(s: State, id: nat, call: StoreCall, key: Key)
    requires Inv(s) && NotesCurrent(s.tables) && Enabled(s, Issue(id, call))
    ensures var t' := Step(s, Issue(id, call)).tables;
            NotesCurrent(t') &&
            (key in t'.pendingInvalidations <==>
             Notes(s, Issue(id, call), key) || (key in s.tables.pendingInvalidations && !call.Reset?))
  {
    if call == Del(key) {
      assert key in s.tables.pendingLoads <==> LookupsOf(s.lookups, key, s.tables.resetVersion) != {} by {
        PendingTableIsExact(s, key);
      }
      InflightIsRunning(s, key);
    }
  }

  lemma PendingTableIsExact(s: State, key: Key)
    requires PendingExact(s.tables, s.lookups)
    ensures key in s.tables.pendingLoads <==> LookupsOf(s.lookups, key, s.tables.resetVersion) != {}
  {
    assert PendingCount(s.tables, key, s.tables.resetVersion) == |LookupsOf(s.lookups, key, s.tables.resetVersion)|;
  }

  lemma InflightIsRunning(s: State, key: Key)
    requires Inv(s)
    ensures key in s.tables.inflight <==> exists l <- s.loads :: Running(s, l, key)
    ensures key in s.tables.inflight ==> Running(s, s.tables.inflight[key], key)
    ensures forall l <- s.loads :: Running(s, l, key) ==> key in s.tables.inflight && s.tables.inflight[key] == l
  {
  }

  lemma FinishNotes(s: State, load: LoadId, key: Key)
    requires Inv(s) && NotesCurrent(s.tables) && Enabled(s, FinishLoad(load))
    ensures var t' := Step(s, FinishLoad(load)).tables;
            NotesCurrent(t') &&
            (key in t'.pendingInvalidations <==>
             key in s.tables.pendingInvalidations && !Spends(s, FinishLoad(load), key))
  {
  }

  /** On every schedule the table of pending invalidations names exactly the keys with a left-over deletion. */
  lemma {:induction false} PendingInvalidationsAreExact(actions: seq<Action>, key: Key)
    requires Run(actions).Some?
    ensures NotesCurrent(Run(actions).value.tables)
    ensures key in Run(actions).value.tables.pendingInvalidations <==> LeftOver(actions, key)
  {
    if actions != [] {
      var before, a := actions[..|actions| - 1], actions[|actions| - 1];
      ReachableInv(before);
      PendingInvalidationsAreExact(before, key);
      LeftOverNext(actions, key);
      StepNotes(Run(before).value, a, key);
    }
  }

  // ---------- The call a load belongs to ----------

  function Resets(actions: seq<Action>): nat {
    if actions == [] then 0
    else
      var a := actions[|actions| - 1];
      Resets(actions[..|actions| - 1]) + if a.Issue? && a.call.Reset? then 1 else 0
  }

  lemma {:induction false} ResetVersionCountsResets(actions: seq<Action>)
    requires Run(actions).Some?
    ensures Run(actions).value.tables.resetVersion == Resets(actions)
  {
    if actions != [] {
      ResetVersionCountsResets(actions[..|actions| - 1]);
      StepCountsResets(Run(actions[..|actions| - 1]).value, actions[|actions| - 1]);
    }
  }

  lemma StepCountsResets(s: State, a: Action)
    requires Enabled(s, a)
    ensures Step(s, a).tables.resetVersion == s.tables.resetVersion + if a.Issue? && a.call.Reset? then 1 else 0
  {
  }

  ghost predicate ResetSince(actions: seq<Action>, i: nat) {
    exists j | i <= j < |actions| :: actions[j].Issue? && actions[j].call.Reset?
  }

  lemma {:induction false} ResetsGrow(actions: seq<Action>, i: nat)
    requires i <= |actions|
    ensures Resets(actions[..i]) <= Resets(actions)
    ensures Resets(actions[..i]) < Resets(actions) <==> ResetSince(actions, i)
    decreases |actions|
  {
    var n := |actions| - 1;
    if i <= n {
      var before := actions[..n];
      ResetsGrow(before, i);
      assert before[..i] == actions[..i];
      if ResetSince(before, i) {
        var j :| i <= j < n && before[j].Issue? && before[j].call.Reset?;
        assert actions[j] == before[j];
      }
      if ResetSince(actions, i) && !(actions[n].Issue? && actions[n].call.Reset?) {
        var j :| i <= j < |actions| && actions[j].Issue? && actions[j].call.Reset?;
        assert before[j] == actions[j];
      }
    } else {
      assert actions[..i] == actions;
    }
  }

  /** The call began at i, and has been in its lookup ever since. */
  ghost predicate LooksUp(actions: seq<Action>, id: nat, key: Key, i: nat)
    decreases |actions|
  {
    i < |actions| && Run(actions).Some? && id in Run(actions).value.lookups &&
    if i == |actions| - 1 then actions[i] == RememberStart(id, key) else LooksUp(actions[..|actions| - 1], id, key, i)
  }

  /** The call that began at i found nothing and created the load at m. */
  ghost predicate CallOf(actions: seq<Action>, load: LoadId, key: Key, i: nat, m: nat) {
    && i < m < |actions| && actions[m].LookupDone? && actions[m].load == load
    && LooksUp(actions[..m], actions[m].id, key, i)
    && Run(actions[..m]).Some? && load !in Run(actions[..m]).value.loads
    && Run(actions[..m + 1]).Some? && load in Run(actions[..m + 1]).value.loads
  }

  lemma StepKeepsLookup(s: State, a: Action, id: nat)
    requires Enabled(s, a) && id in Step(s, a).lookups
    ensures (a.RememberStart? && a.id == id) || id in s.lookups
    ensures id in s.lookups ==> Step(s, a).lookups[id].key == s.lookups[id].key
    ensures id in s.lookups ==> Step(s, a).lookups[id].generation == s.lookups[id].generation
    ensures id !in s.lookups ==> Step(s, a).lookups[id] == Lookup(a.key, s.tables.resetVersion, Reading)
  {
  }

  /** A lookup has the key of its call, and its generation is the number of resets before the call. */
  lemma {:induction false} LookupOfCall(actions: seq<Action>, id: nat, key: Key, i: nat)
    requires LooksUp(actions, id, key, i)
    ensures Run(actions).Some? && id in Run(actions).value.lookups
    ensures Run(actions).value.lookups[id].key == key
    ensures Run(actions).value.lookups[id].generation == Resets(actions[..i])
    decreases |actions|
  {
    var n := |actions| - 1;
    var before := actions[..n];
    if i < n {
      LookupOfCall(before, id, key, i);
      assert before[..i] == actions[..i];
      StepKeepsLookup(Run(before).value, actions[n], id);
    } else {
      ResetVersionCountsResets(before);
      assert before == actions[..i];
    }
  }

  /** Every pending lookup belongs to a call. */
  lemma {:induction false} LookupHasCall(actions: seq<Action>, id: nat) returns (i: nat)
    requires Run(actions).Some? && id in Run(actions).value.lookups
    ensures LooksUp(actions, id, Run(actions).value.lookups[id].key, i)
  {
    var n := |actions| - 1;
    var before, a := actions[..n], actions[n];
    var s := Run(before).value;
    StepKeepsLookup(s, a, id);
    if id in s.lookups {
      i := LookupHasCall(before, id);
    } else {
      i := n;
    }
  }

  /** A new load belongs to the lookup that ended without a hit, and is born invalidated by a note of its generation. */
  lemma StepCreatesLoad(s: State, a: Action, load: LoadId)
    requires Enabled(s, a) && load !in s.loads && load in Step(s, a).loads
    ensures a.LookupDone? && a.load == load && a.id in s.lookups && load in Step(s, a).tables.entries
    ensures s.lookups[a.id].phase == Answered(false) && s.lookups[a.id].key !in s.tables.inflight
    ensures var lookup := s.lookups[a.id];
            Step(s, a).tables.entries[load] ==
            Entry(lookup.key, lookup.generation, lookup.key in s.tables.pendingInvalidations &&
                                                 s.tables.pendingInvalidations[lookup.key] == lookup.generation)
  {
  }

  lemma StepKeepsEntry(s: State, a: Action, load: LoadId)
    requires Inv(s) && Enabled(s, a) && load in s.loads
    ensures load in s.tables.entries && load in Step(s, a).tables.entries
    ensures var e, e' := s.tables.entries[load], Step(s, a).tables.entries[load];
            e'.key == e.key && e'.generation == e.generation &&
            (e'.invalidated <==> e.invalidated || (a.Issue? && a.call == Del(e.key) && Running(s, load, e.key)))
  {
    if a.Issue? { IssueKeepsEntry(s, a.id, a.call, load); } else { OthersKeepEntry(s, a, load); }
  }

  lemma IssueKeepsEntry(s: State, id: nat, call: StoreCall, load: LoadId)
    requires Inv(s) && Enabled(s, Issue(id, call)) && load in s.loads
    ensures var t' := Step(s, Issue(id, call)).tables;
            load in s.tables.entries && load in t'.entries &&
            var e, e' := s.tables.entries[load], t'.entries[load];
            e'.key == e.key && e'.generation == e.generation &&
            (e'.invalidated <==> e.invalidated || (call == Del(e.key) && Running(s, load, e.key)))
  {
    if call.Del? { InflightIsRunning(s, call.key); }
  }

  lemma OthersKeepEntry(s: State, a: Action, load: LoadId)
    requires LoadsTracked(s) && Enabled(s, a) && !a.Issue? && load in s.loads
    ensures load in s.tables.entries && load in Step(s, a).tables.entries
    ensures Step(s, a).tables.entries[load] == s.tables.entries[load]
  {
    assert load in s.tables.entries;
    if !a.LookupDone? { EntriesKept(s, a); }
  }

  lemma EntriesKept(s: State, a: Action)
    requires Enabled(s, a) && !a.Issue? && !a.LookupDone?
    ensures Step(s, a).tables.entries == s.tables.entries
  {
  }

  lemma CallLonger(actions: seq<Action>, load: LoadId, key: Key, i: nat, m: nat)
    requires actions != [] && CallOf(actions[..|actions| - 1], load, key, i, m)
    ensures CallOf(actions, load, key, i, m)
  {
    var before := actions[..|actions| - 1];
    assert before[..m] == actions[..m] && before[..m + 1] == actions[..m + 1];
  }

  /** Every load belongs to a call. */
  lemma {:induction false} LoadHasCall(actions: seq<Action>, load: LoadId) returns (i: nat, m: nat)
    requires Run(actions).Some? && load in Run(actions).value.loads
    ensures load in Run(actions).value.tables.entries
    ensures CallOf(actions, load, Run(actions).value.tables.entries[load].key, i, m)
  {
    var n := |actions| - 1;
    var before, a := actions[..n], actions[n];
    var s := Run(before).value;
    ReachableInv(before);
    if load in s.loads {
      i, m := LoadHasCall(before, load);
      StepKeepsEntry(s, a, load);
      CallLonger(actions, load, s.tables.entries[load].key, i, m);
    } else {
      StepCreatesLoad(s, a, load);
      i := LookupHasCall(before, a.id);
      m := n;
      assert actions[..n + 1] == actions;
    }
  }

  // ---------- When a load is current ----------

  /** The key of the load is deleted while the load is running. */
  ghost predicate HitAt(actions: seq<Action>, load: LoadId, key: Key, j: nat) {
    j < |actions| && Run(actions[..j]).Some? && Running(Run(actions[..j]).value, load, key) &&
    actions[j].Issue? && actions[j].call == Del(key)
  }

  ghost predicate DeletedWhileRunning(actions: seq<Action>, load: LoadId, key: Key) {
    exists j :: HitAt(actions, load, key, j)
  }

  lemma DeletedNext(actions: seq<Action>, load: LoadId, key: Key)
    requires actions != [] && Run(actions).Some?
    ensures var before, a := actions[..|actions| - 1], actions[|actions| - 1];
            Run(before).Some? &&
            (DeletedWhileRunning(actions, load, key) <==>
             DeletedWhileRunning(before, load, key) ||
             (Running(Run(before).value, load, key) && a.Issue? && a.call == Del(key)))
  {
    var n := |actions| - 1;
    var before := actions[..n];
    var now := Running(Run(before).value, load, key) && actions[n].Issue? && actions[n].call == Del(key);
    assert HitAt(actions, load, key, n) <==> now;
    if DeletedWhileRunning(actions, load, key) && !now {
      var j: nat :| HitAt(actions, load, key, j);
      SameHit(actions, load, key, j);
    }
    if DeletedWhileRunning(before, load, key) {
      var j: nat :| HitAt(before, load, key, j);
      SameHit(actions, load, key, j);
    }
  }

  lemma SameHit(actions: seq<Action>, load: LoadId, key: Key, j: nat)
    requires j < |actions| - 1
    ensures HitAt(actions, load, key, j) <==> HitAt(actions[..|actions| - 1], load, key, j)
  {
    assert actions[..|actions| - 1][..j] == actions[..j];
  }

  lemma NotYetHit(actions: seq<Action>, load: LoadId, key: Key)
    requires Run(actions).Some? && load !in Run(actions).value.loads
    ensures !DeletedWhileRunning(actions, load, key)
  {
    forall j | HitAt(actions, load, key, j) ensures false { LoadSurvives(actions, load, j); }
  }

  ghost predicate EntryExact(actions: seq<Action>, load: LoadId, key: Key, i: nat, m: nat, e: Entry) {
    && i <= m <= |actions| && e.key == key && e.generation == Resets(actions[..i])
    && (e.invalidated <==> DeletedWhileRunning(actions, load, key) ||
                           (LeftOver(actions[..m], key) && Resets(actions[..m]) == Resets(actions[..i])))
  }

  /** What a load learned from deletions, and its key and generation. */
  lemma {:induction false} EntryIsExact(actions: seq<Action>, load: LoadId, key: Key, i: nat, m: nat)
    requires Run(actions).Some? && CallOf(actions, load, key, i, m)
    ensures load in Run(actions).value.loads && load in Run(actions).value.tables.entries
    ensures EntryExact(actions, load, key, i, m, Run(actions).value.tables.entries[load])
    decreases |actions|
  {
    var n := |actions| - 1;
    if m < n {
      CallShorter(actions, load, key, i, m);
      EntryIsExact(actions[..n], load, key, i, m);
      EntryStaysExact(actions, load, key, i, m);
    } else {
      EntryIsBornExact(actions, load, key, i, m);
    }
  }

  lemma EntryStaysExact(actions: seq<Action>, load: LoadId, key: Key, i: nat, m: nat)
    requires actions != [] && Run(actions).Some? && Run(actions[..|actions| - 1]).Some?
    requires var s := Run(actions[..|actions| - 1]).value;
             load in s.loads && load in s.tables.entries &&
             EntryExact(actions[..|actions| - 1], load, key, i, m, s.tables.entries[load])
    ensures load in Run(actions).value.loads && load in Run(actions).value.tables.entries
    ensures EntryExact(actions, load, key, i, m, Run(actions).value.tables.entries[load])
  {
    var before, a := actions[..|actions| - 1], actions[|actions| - 1];
    ReachableInv(before);
    DeletedNext(actions, load, key);
    assert before[..i] == actions[..i] && before[..m] == actions[..m];
    StepKeepsEntry(Run(before).value, a, load);
    StepKeepsLoad(Run(before).value, a, load);
  }

  lemma EntryIsBornExact(actions: seq<Action>, load: LoadId, key: Key, i: nat, m: nat)
    requires Run(actions).Some? && CallOf(actions, load, key, i, m) && m == |actions| - 1
    ensures load in Run(actions).value.loads && load in Run(actions).value.tables.entries
    ensures EntryExact(actions, load, key, i, m, Run(actions).value.tables.entries[load])
  {
    EntryIsBorn(actions, load, key, i, m);
    BornExact(actions, load, key, i, Run(actions).value.tables.entries[load]);
  }

  /** What the entry was created with is what the actions say. */
  lemma BornExact(actions: seq<Action>, load: LoadId, key: Key, i: nat, e: Entry)
    requires actions != [] && i < |actions| && Run(actions).Some? && Run(actions[..|actions| - 1]).Some?
    requires load !in Run(actions[..|actions| - 1]).value.loads
    requires var t, g := Run(actions[..|actions| - 1]).value.tables, Resets(actions[..i]);
             e == Entry(key, g, key in t.pendingInvalidations && t.pendingInvalidations[key] == g)
    ensures EntryExact(actions, load, key, i, |actions| - 1, e)
  {
    BornUnhit(actions, load, key);
    NotedForGeneration(actions[..|actions| - 1], key, Resets(actions[..i]));
  }

  lemma BornUnhit(actions: seq<Action>, load: LoadId, key: Key)
    requires actions != [] && Run(actions).Some? && Run(actions[..|actions| - 1]).Some?
    requires load !in Run(actions[..|actions| - 1]).value.loads
    ensures !DeletedWhileRunning(actions, load, key)
  {
    NotYetHit(actions[..|actions| - 1], load, key);
    DeletedNext(actions, load, key);
  }

  lemma NotedForGeneration(actions: seq<Action>, key: Key, generation: nat)
    requires Run(actions).Some?
    ensures var t := Run(actions).value.tables;
            key in t.pendingInvalidations && t.pendingInvalidations[key] == generation <==>
            LeftOver(actions, key) && Resets(actions) == generation
  {
    PendingInvalidationsAreExact(actions, key);
    ResetVersionCountsResets(actions);
  }

  lemma LookupOfLoad(actions: seq<Action>, load: LoadId, key: Key, i: nat, m: nat)
    requires CallOf(actions, load, key, i, m)
    ensures var s, id := Run(actions[..m]).value, actions[m].id;
            id in s.lookups && s.lookups[id].key == key && s.lookups[id].generation == Resets(actions[..i])
  {
    assert actions[..m][..i] == actions[..i];
    LookupOfCall(actions[..m], actions[m].id, key, i);
  }

  lemma EntryIsBorn(actions: seq<Action>, load: LoadId, key: Key, i: nat, m: nat)
    requires Run(actions).Some? && CallOf(actions, load, key, i, m) && m == |actions| - 1
    ensures Run(actions[..m]).Some? && load !in Run(actions[..m]).value.loads
    ensures load in Run(actions).value.loads && load in Run(actions).value.tables.entries
    ensures var t, g := Run(actions[..m]).value.tables, Resets(actions[..i]);
            Run(actions).value.tables.entries[load] ==
            Entry(key, g, key in t.pendingInvalidations && t.pendingInvalidations[key] == g)
  {
    var before, a := actions[..m], actions[m];
    var s := Run(before).value;
    assert actions[..m + 1] == actions;
    LookupOfLoad(actions, load, key, i, m);
    assert Enabled(s, a) && Run(actions).value == Step(s, a);
    LookupCreates(s, a, load, Run(actions).value, key, Resets(actions[..i]));
  }

  lemma LookupCreates(s: State, a: Action, load: LoadId, s': State, key: Key, generation: nat)
    requires Enabled(s, a) && s' == Step(s, a) && load !in s.loads && load in s'.loads && a.LookupDone?
    requires a.id in s.lookups && s.lookups[a.id].key == key && s.lookups[a.id].generation == generation
    ensures load in s'.tables.entries
    ensures s'.tables.entries[load] ==
            Entry(key, generation,
                  key in s.tables.pendingInvalidations && s.tables.pendingInvalidations[key] == generation)
  {
    StepCreatesLoad(s, a, load);
  }

  lemma CallShorter(actions: seq<Action>, load: LoadId, key: Key, i: nat, m: nat)
    requires CallOf(actions, load, key, i, m) && m < |actions| - 1
    ensures CallOf(actions[..|actions| - 1], load, key, i, m)
  {
    var before := actions[..|actions| - 1];
    assert before[..m] == actions[..m] && before[..m + 1] == actions[..m + 1];
  }

  /**
   On every schedule a load is outdated in its own eyes exactly if the cache was reset since its call began, or its key
   was deleted while it was running, or a deletion noted for calls that were in their lookup at the time was left over
   when the load was created.
   */
  lemma CurrencyIsExact(actions: seq<Action>, load: LoadId, key: Key, i: nat, m: nat)
    requires Run(actions).Some? && CallOf(actions, load, key, i, m)
    ensures load in Run(actions).value.tables.entries
    ensures !StillCurrent(Run(actions).value.tables, load) <==>
            ResetSince(actions, i) || DeletedWhileRunning(actions, load, key) || LeftOver(actions[..m], key)
  {
    EntryIsExact(actions, load, key, i, m);
    ResetVersionCountsResets(actions);
    ResetsGrow(actions, i);
    ResetsGrow(actions, m);
    ResetsGrow(actions[..m], i);
    assert actions[..m][..i] == actions[..i];
  }

  ghost predicate DeletedSince(actions: seq<Action>, key: Key, i: nat) {
    exists j | i <= j < |actions| :: Invalidates(actions[j], key)
  }

  /**
   A load whose call no deletion and no reset has followed is current, unless an earlier deletion is left over when it
   is created.  Such a deletion had been left over when the call began, which the table of pending invalidations tells.
   */
  lemma UndisturbedLoadIsCurrent(actions: seq<Action>, load: LoadId, key: Key, i: nat, m: nat)
    requires Run(actions).Some? && CallOf(actions, load, key, i, m) && !DeletedSince(actions, key, i)
    ensures load in Run(actions).value.tables.entries
    ensures StillCurrent(Run(actions).value.tables, load) <==> !LeftOver(actions[..m], key)
    ensures LeftOver(actions[..m], key) ==> LeftOver(actions[..i], key)
    ensures Run(actions[..i]).Some? &&
            (LeftOver(actions[..i], key) <==> key in Run(actions[..i]).value.tables.pendingInvalidations)
  {
    CurrencyIsExact(actions, load, key, i, m);
    if j: nat :| HitAt(actions, load, key, j) {
      if j < m { NotYetHit(actions[..m], load, key); HitEarlier(actions, load, key, j, m); }
      assert Invalidates(actions[j], key);
    }
    RunPrefix(actions, i);
    PendingInvalidationsAreExact(actions[..i], key);
    if LeftOver(actions[..m], key) { LeftOverAtCall(actions, key, i, m); }
  }

  lemma {:induction false} RunPrefix(actions: seq<Action>, i: nat)
    requires i <= |actions| && Run(actions).Some?
    ensures Run(actions[..i]).Some?
  {
    if i < |actions| {
      RunPrefix(actions[..|actions| - 1], i);
      assert actions[..|actions| - 1][..i] == actions[..i];
    } else {
      assert actions[..i] == actions;
    }
  }

  lemma HitEarlier(actions: seq<Action>, load: LoadId, key: Key, j: nat, m: nat)
    requires j < m <= |actions| && HitAt(actions, load, key, j)
    ensures DeletedWhileRunning(actions[..m], load, key)
  {
    assert actions[..m][..j] == actions[..j];
    assert HitAt(actions[..m], load, key, j);
  }

  lemma LeftOverAtCall(actions: seq<Action>, key: Key, i: nat, m: nat)
    requires i <= m <= |actions| && !DeletedSince(actions, key, i) && LeftOver(actions[..m], key)
    ensures LeftOver(actions[..i], key)
  {
    var long, short := actions[..m], actions[..i];
    var j: nat :| NotedAt(long, key, j) && UnspentFrom(long, key, j);
    assert long[j] == actions[j] && Invalidates(actions[j], key);
    assert j < i;
    assert short[..j] == long[..j] && NotedAt(short, key, j);
    forall k | j < k < |short| ensures !SpentAt(short, key, k) {
      assert short[..k] == long[..k];
      assert !SpentAt(long, key, k);
    }
    assert UnspentFrom(short, key, j);
  }
}
