/** The caching side of `AnalyticsService`: the class that the transition system of `CacheProtocol` specifies. */
module AnalyticsCache {
  import opened Events
  import P = CacheProtocol

  const DEFAULT_CACHE_KEYS_MAX_PER_WORKSPACE: nat := 10_000

  class AnalyticsService {
    var pendingQueries: set<P.Key>
    var workspaceCacheKeys: map<string, seq<P.Key>>
    var cache: set<P.Key>
    const cacheKeysMaxPerWorkspace: P.Cap

    // The suspended calls: lookups, misses, executions, evictions and backfills under way.
    ghost var looking: multiset<P.Key>
    ghost var missed: multiset<P.Key>
    ghost var executing: seq<P.Execution>
    ghost var evictions: multiset<P.Key>
    ghost var sweeps: seq<P.Sweep>

    ghost function View(): P.State
      reads this
    {
      P.State(workspaceCacheKeys, cache, pendingQueries, looking, missed, executing, evictions, sweeps)
    }

    ghost predicate Valid()
      reads this
    {
      P.SingleFlight(View()) && P.Bounded(View(), cacheKeysMaxPerWorkspace)
    }

    /** `configured` is the environment override, if it parses as an integer. */
    constructor (configured: Option<int>)
      ensures Valid() && View() == P.EMPTY
      ensures cacheKeysMaxPerWorkspace
           == if configured.Some? && configured.value > 0 then configured.value
              else DEFAULT_CACHE_KEYS_MAX_PER_WORKSPACE
    {
      pendingQueries, workspaceCacheKeys, cache := {}, map[], {};
      looking, missed, executing, evictions, sweeps := multiset{}, multiset{}, [], multiset{}, [];
      cacheKeysMaxPerWorkspace :=
        if configured.Some? && configured.value > 0 then configured.value else DEFAULT_CACHE_KEYS_MAX_PER_WORKSPACE;
    }

    /** Returns the key whose cache entry is to be deleted, if one was evicted. */
    method TrackCacheKey(key: P.Key) returns (oldest: Option<P.Key>)
      requires Valid()
      modifies this`workspaceCacheKeys, this`evictions
      ensures Valid() && View() == P.Track(old(View()), key, cacheKeysMaxPerWorkspace)
      ensures evictions == old(evictions) + if oldest.Some? then multiset{oldest.value} else multiset{}
    {
      P.TrackKeepsBounded(View(), key, cacheKeysMaxPerWorkspace);
      var w := key.workspaceId;
      var keys := if w in workspaceCacheKeys then workspaceCacheKeys[w] else [];
      oldest := None;
      if |keys| >= cacheKeysMaxPerWorkspace && key !in keys {
        oldest := Some(keys[0]);
        keys := keys[1..];
        evictions := evictions + multiset{oldest.value};
      }
      assert oldest.None? ==> |keys| < cacheKeysMaxPerWorkspace || key in keys;
      if oldest.Some? || key !in keys {
        keys := keys + [key];
      }
      workspaceCacheKeys := workspaceCacheKeys[w := keys];
    }

    /** `query` up to the cache lookup. */
    method QueryArrives(key: P.Key) returns (oldest: Option<P.Key>)
      requires Valid()
      modifies this
      ensures Valid() && View() == P.Step(old(View()), P.Arrives(key), cacheKeysMaxPerWorkspace)
    {
      oldest := TrackCacheKey(key);
      looking := looking + multiset{key};
    }

    /** The cache answers: a hit ends the call. */
    method QueryLooks(key: P.Key) returns (hit: bool)
      requires Valid() && key in looking
      modifies this
      ensures Valid() && View() == P.Step(old(View()), P.Looks(key), cacheKeysMaxPerWorkspace)
      ensures hit == (key in cache)
    {
      hit := key in cache;
      looking := looking - multiset{key};
      if !hit {
        missed := missed + multiset{key};
      }
    }

    /** After a miss: the call joins the execution in flight, or starts one. */
    method QueryProceeds(key: P.Key) returns (started: bool)
      requires Valid() && key in missed
      modifies this
      ensures Valid() && View() == P.Step(old(View()), P.Proceeds(key), cacheKeysMaxPerWorkspace)
      ensures started <==> forall i | 0 <= i < |old(executing)| :: old(executing)[i].key != key
    {
      P.ProceedKeepsSingleFlight(View(), key);
      missed := missed - multiset{key};
      if key in pendingQueries {
        return false;
      }
      executing := executing + [P.Execution(key, false)];
      pendingQueries := pendingQueries + {key};
      started := true;
    }

    /** The `then` of an execution: its result is written to the cache. */
    method StoreResult(key: P.Key, ghost i: nat)
      requires Valid() && i < |executing| && executing[i] == P.Execution(key, false)
      modifies this
      ensures Valid() && View() == P.Step(old(View()), P.Stores(i), cacheKeysMaxPerWorkspace)
    {
      P.StoreKeepsSingleFlight(View(), i, cacheKeysMaxPerWorkspace);
      cache := cache + {key};
      executing := executing[i := P.Execution(key, true)];
    }

    /** The `finally` of an execution, whether or not it stored a result. */
    method ForgetPending(key: P.Key, ghost i: nat)
      requires Valid() && i < |executing| && executing[i].key == key
      modifies this
      ensures Valid() && View() == P.Step(old(View()), P.Settles(i), cacheKeysMaxPerWorkspace)
      ensures forall j | 0 <= j < |executing| :: executing[j].key != key
    {
      P.SettleKeepsSingleFlight(View(), i);
      pendingQueries := pendingQueries - {key};
      executing := executing[..i] + executing[i + 1..];
    }

    /** `handleBackfillCompleted` up to its deletes: the returned keys are the ones to delete. */
    method BackfillCompleted(workspaceId: string) returns (keys: seq<P.Key>)
      requires Valid()
      modifies this`sweeps
      ensures Valid() && View() == P.Step(old(View()), P.BackfillStarts(workspaceId), cacheKeysMaxPerWorkspace)
      ensures sweeps == old(sweeps) || sweeps == old(sweeps) + [P.Sweep(workspaceId, set k | k in keys)]
    {
      keys := [];
      if workspaceId in workspaceCacheKeys {
        keys := workspaceCacheKeys[workspaceId];
        sweeps := sweeps + [P.Sweep(workspaceId, set k | k in keys)];
      }
    }

    /** After the deletes: the workspace is forgotten, with whatever was tracked meanwhile. */
    method BackfillEnds(workspaceId: string, ghost i: nat)
      requires Valid() && i < |sweeps| && sweeps[i] == P.Sweep(workspaceId, {})
      modifies this
      ensures Valid() && View() == P.Step(old(View()), P.BackfillEnds(i), cacheKeysMaxPerWorkspace)
    {
      P.StepKeepsBounded(View(), P.BackfillEnds(i), cacheKeysMaxPerWorkspace);
      workspaceCacheKeys := workspaceCacheKeys - {workspaceId};
      sweeps := sweeps[..i] + sweeps[i + 1..];
    }
  }
}
