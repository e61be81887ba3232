/**
 What each synchronous segment of the cache facade does to its own tables.

 JavaScript runs a segment, the code between two awaits, without interruption.  A read-through call is cut into
 segments at its awaits, and every function below is the meaning of one segment.  The tables of in-flight loads hold
 entry records that the pending promise callbacks keep using after the table has dropped them, so the records live in
 `entries` and the table holds their identities.
 */
module CacheBookkeeping {
  type Key = string
  type LoadId = nat

  datatype Entry = Entry(key: Key, generation: nat, invalidated: bool)

  datatype Tables = Tables(
    resetVersion: nat,
    inflight: map<Key, LoadId>,
    pendingLoads: map<Key, map<nat, nat>>,
    pendingInvalidations: map<Key, nat>,
    entries: map<LoadId, Entry>)

  const EmptyTables := Tables(0, map[], map[], map[], map[])

  function CountOf(generations: map<nat, nat>, generation: nat): nat {
    if generation in generations then generations[generation] else 0
  }

  function PendingCount(t: Tables, key: Key, generation: nat): nat {
    if key in t.pendingLoads then CountOf(t.pendingLoads[key], generation) else 0
  }

  function CountOneMore(pending: map<Key, map<nat, nat>>, key: Key, generation: nat): map<Key, map<nat, nat>> {
    var generations := if key in pending then pending[key] else map[];
    pending[key := generations[generation := CountOf(generations, generation) + 1]]
  }

  function CountOneLess(pending: map<Key, map<nat, nat>>, key: Key, generation: nat): map<Key, map<nat, nat>> {
    if key !in pending then pending
    else
      var generations := pending[key];
      if CountOf(generations, generation) > 1 then
        pending[key := generations[generation := CountOf(generations, generation) - 1]]
      else if generations - {generation} == map[] then
        pending - {key}
      else
        pending[key := generations - {generation}]
  }

  function BeginPending(t: Tables, key: Key, generation: nat): Tables {
    t.(pendingLoads := CountOneMore(t.pendingLoads, key, generation))
  }

  function EndPending(t: Tables, key: Key, generation: nat): Tables {
    t.(pendingLoads := CountOneLess(t.pendingLoads, key, generation))
  }

  /** The entry record built on a miss; a deletion noted while the lookup was pending marks it from the start. */
  function CreateEntry(t: Tables, load: LoadId, key: Key, generation: nat): Tables {
    var doomed := key in t.pendingInvalidations && t.pendingInvalidations[key] == generation;
    t.(entries := t.entries[load := Entry(key, generation, doomed)])
  }

  function RegisterLoad(t: Tables, load: LoadId, key: Key, generation: nat): Tables {
    EndPending(t.(inflight := t.inflight[key := load]), key, generation)
  }

  /** The check made before the store write and again after it. */
  predicate StillCurrent(t: Tables, load: LoadId)
    requires load in t.entries
  {
    !t.entries[load].invalidated && t.resetVersion == t.entries[load].generation
  }

  function Without<V(==)>(m: map<Key, V>, key: Key, value: V): map<Key, V> {
    if key in m && m[key] == value then m - {key} else m
  }

  function Finish(t: Tables, load: LoadId): Tables
    requires load in t.entries
  {
    var e := t.entries[load];
    t.(inflight := Without(t.inflight, e.key, load),
       pendingInvalidations := Without(t.pendingInvalidations, e.key, e.generation))
  }

  /** Marks the running load of the key or, when only lookups are pending, remembers the deletion for the next miss. */
  function NoteDeletion(t: Tables, key: Key): Tables
    requires key in t.inflight ==> t.inflight[key] in t.entries
  {
    t.(entries := if key in t.inflight
                  then t.entries[t.inflight[key] := t.entries[t.inflight[key]].(invalidated := true)] else t.entries,
       pendingInvalidations := if key !in t.inflight && key in t.pendingLoads
                               then t.pendingInvalidations[key := t.resetVersion] else t.pendingInvalidations)
  }

  function NoteReset(t: Tables): Tables {
    t.(resetVersion := t.resetVersion + 1, inflight := map[], pendingLoads := map[], pendingInvalidations := map[])
  }
}
