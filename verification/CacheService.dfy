/**
 The cache facade as an object: its methods are the synchronous segments of the original's methods and update the
 object's tables in place.  Each is proved to do to the tables exactly what the protocol's steps do.
 */
module CacheService {
  import opened CacheBookkeeping

  /** How a lookup ends: with the cached value, by joining a running load, or by invoking the caller's loader. */
  datatype LookupOutcome = Cached | Joined(load: LoadId) | Invoke

  class Service {
    var resetVersion: nat
    var inflight: map<Key, LoadId>
    var pendingLoads: map<Key, map<nat, nat>>
    var pendingInvalidations: map<Key, nat>
    var entries: map<LoadId, Entry>

    ghost function Contents(): Tables
      reads this
    {
      Tables(resetVersion, inflight, pendingLoads, pendingInvalidations, entries)
    }

    ghost predicate Valid()
      reads this
    {
      forall k <- inflight :: inflight[k] in entries
    }

    constructor ()
      ensures Valid() && Contents() == EmptyTables
    {
      resetVersion := 0;
      inflight, pendingLoads, pendingInvalidations, entries := map[], map[], map[], map[];
    }

    method BeginPendingLoad(key: Key, generation: nat)
      modifies this`pendingLoads
      ensures Contents() == BeginPending(old(Contents()), key, generation)
    {
      var generations: map<nat, nat> := map[];
      if key in pendingLoads {
        generations := pendingLoads[key];
      }
      var count := 0;
      if generation in generations {
        count := generations[generation];
      }
      generations := generations[generation := count + 1];
      pendingLoads := pendingLoads[key := generations];
    }

    method EndPendingLoad(key: Key, generation: nat)
      modifies this`pendingLoads
      ensures Contents() == EndPending(old(Contents()), key, generation)
    {
      if key !in pendingLoads {
        return;
      }
      var generations: map<nat, nat> := pendingLoads[key];
      var remaining: int := -1;
      if generation in generations {
        remaining := generations[generation] as int - 1;
      }
      if remaining > 0 {
        pendingLoads := pendingLoads[key := generations[generation := remaining]];
        return;
      }
      generations := generations - {generation};
      pendingLoads := pendingLoads[key := generations];
      if generations == map[] {
        pendingLoads := pendingLoads - {key};
        assert pendingLoads == old(pendingLoads) - {key};
      }
    }

    method Remember(key: Key) returns (generation: nat)
      requires Valid()
      modifies this`pendingLoads
      ensures Valid()
      ensures generation == resetVersion && Contents() == BeginPending(old(Contents()), key, generation)
    {
      generation := resetVersion;
      BeginPendingLoad(key, generation);
    }

    /** The segment after the store lookup; on a miss with no running load it builds the entry the loader will use. */
    method LookupFinished(key: Key, generation: nat, hit: bool, load: LoadId) returns (outcome: LookupOutcome)
      requires Valid() && load !in entries
      modifies this`pendingLoads, this`entries
      ensures Valid()
      ensures outcome == if hit then Cached
                         else if key in old(inflight) then Joined(old(inflight)[key]) else Invoke
      ensures Contents() == if outcome.Invoke? then CreateEntry(old(Contents()), load, key, generation)
                            else EndPending(old(Contents()), key, generation)
    {
      if hit {
        EndPendingLoad(key, generation);
        return Cached;
      }
      if key in inflight {
        EndPendingLoad(key, generation);
        return Joined(inflight[key]);
      }
      var doomed := false;
      if key in pendingInvalidations {
        doomed := pendingInvalidations[key] == generation;
      }
      entries := entries[load := Entry(key, generation, doomed)];
      outcome := Invoke;
    }

    method LoaderReturned(key: Key, generation: nat, load: LoadId)
      requires Valid() && load in entries
      modifies this`inflight, this`pendingLoads
      ensures Valid() && Contents() == RegisterLoad(old(Contents()), load, key, generation)
    {
      inflight := inflight[key := load];
      EndPendingLoad(key, generation);
    }

    method IsCurrent(load: LoadId) returns (current: bool)
      requires Valid() && load in entries
      ensures current == StillCurrent(Contents(), load)
    {
      current := !(entries[load].invalidated || resetVersion != entries[load].generation);
    }

    method FinishLoad(load: LoadId)
      requires Valid() && load in entries
      modifies this`inflight, this`pendingInvalidations
      ensures Valid() && Contents() == Finish(old(Contents()), load)
    {
      var key := entries[load].key;
      if key in inflight && inflight[key] == load {
        inflight := inflight - {key};
      }
      if key in pendingInvalidations && pendingInvalidations[key] == entries[load].generation {
        pendingInvalidations := pendingInvalidations - {key};
      }
    }

    method Del(key: Key)
      requires Valid()
      modifies this`entries, this`pendingInvalidations
      ensures Valid() && Contents() == NoteDeletion(old(Contents()), key)
    {
      if key in inflight {
        var load := inflight[key];
        entries := entries[load := entries[load].(invalidated := true)];
      } else if key in pendingLoads {
        pendingInvalidations := pendingInvalidations[key := resetVersion];
      }
    }

    method Reset()
      requires Valid()
      modifies this`resetVersion, this`inflight, this`pendingLoads, this`pendingInvalidations
      ensures Valid() && Contents() == NoteReset(old(Contents()))
    {
      resetVersion := resetVersion + 1;
      inflight, pendingLoads, pendingInvalidations := map[], map[], map[];
    }
  }
}
