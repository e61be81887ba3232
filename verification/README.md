# Verified models of fluo's stateful core

This project models eight components of the fluo framework that carry real algorithms or concurrency, and proves the
properties they are built for. `dafny verify dfyconfig.toml` checks all of it.

Asynchronous code is modelled as a step system: the stretch of code between two awaits is one step, and the theorems
quantify over every sequence of steps. Beside the step systems stand classes and methods in the form of the source,
each proved against the functions the theorems speak about.

- **Cache read-through** (`CacheBookkeeping`, `CacheProtocol`, `CacheFreshness`, `CacheStoring`, `CacheWriting`,
  `CacheService`): `remember`, `del`, `reset` and `set` interleave at every await. A store call takes effect at some
  step between its issue and its completion, or fails without an effect.
- **Distributed cron lock** (`CronLockMonitor`, `CronLockProtocol`, `CronLockSafety`, `CronLockTightness`,
  `CronLockRelease`): any number of nodes with distinct owner ids compete for one key with a time-to-live of at least
  1000 ms. Each node runs one task per key, timers fire late or never but not early, replies may be lost, and a failed
  command has no later effect. Taking up the acquisition reply and starting the body is one step.
- **Cron task registry** (`CronScheduler`, `CronSwitches`, `CronService`): registration, switching, cron updates,
  ticks, startup and shutdown of the scheduler.
- **Heap clone** (`HeapClone`): the fallback clone on native heap objects, cyclic or not.
- **Dependency injection** (`DiGraph`, `DiRevision`, `DiContainer`, `DiContainerTree`, `DiRegistrations`:
  registrations, lookups, verdicts and plan caches; `DiResolve`, `DiResolveFacts`, `DiResolveCaches`, `DiScopeCheck`,
  `DiSharing`, `DiResolver`: resolution; `DiCoherence`, `DiNested`, `DiOverride`, `DiOverrideRuns`: coherence at any
  depth of scopes and overrides over whole runs; `DiDisposal`, `DiDisposalFacts`, `DiDisposalRuns`,
  `DiDisposalErrors`, `DiDisposalOrder`: disposal, its errors and its order). Class metadata is folded into normalized
  providers, a forward reference is the token it yields, and one resolution is sequential. A cache entry appears when
  its construction has succeeded, which a sequential resolution cannot tell from a pending entry that is withdrawn on
  failure. The containers of a tree are the entries of one table. `throws` says which constructions throw.
- **Drizzle transactions** (`DrizzleProtocol`, `DrizzleDatabase`): plain, request-scoped and nested transactions
  against a draining shutdown.
- **HTTP routes** (`RoutePath`, `RouteTable`, `RouteMatch`, `RouteOrder`, `RouteSources`): path normalization and
  parsing on strings, the duplicate check, the two-tier index, and its refinement of an ordered scan.
- **GraphQL budgets** (`GraphqlBudget`, `GraphqlDocuments`): the fragment-expanding walk against the metrics of the
  inlined operation.
- **Configuration** (`ConfigMerge`, `ConfigShapes`, `ConfigClone`, `ConfigHeap`, `ConfigService`, `ConfigReload`):
  deep merge, on values and in place on the heap, deep copy, key lookup, transactional reload.

`Options` and `Text` hold the option type, string splitting and decimal numerals.

## What the proofs showed about the code

- Cache freshness holds up to two cases, and exactly up to them (`StoredValueIsFresh` is an if-and-only-if). An entry is
  built before the loader runs and enters the in-flight table only after the loader has returned its promise, so a
  deletion the loader makes itself in between is missed (`SelfDeletionIsMissed`). And a load forgets a value that it
  failed to remove, as does a `del` or `reset` whose store call fails (`FailedRemovalIsForgotten`).
- Nor is every fresh value stored. A deletion that comes while a call is in its lookup is noted for the load that call
  may start. If the call hits or joins instead, the note stays, and the next call that loads the key takes its value for
  outdated although it began after the deletion (`LeftOverDeletionSkipsStore`). Apart from that, and exactly apart from
  that, a call that no deletion and no reset disturbs has its value stored (`UndisturbedLoadIsCurrent`,
  `UndisturbedValueIsStored`).
- A successful cron run excludes others under two conditions: its body starts no later after the grant than the
  time-to-live minus one renewal interval, plus one tick of the clock, and the node had issued no shutdown release by then
  (`SuccessfulRunsNeverOverlap`). Both are exact: for every time-to-live and every wait that breaks one of them there is a
  schedule on which two successful runs overlap (`OverlapExactly`). A run that has the lock throughout needs the bound
  without the extra tick, and that is exact too (`PossessionExactly`).
- Exactly-once destruction holds for an instance unless an override drops it from a scope whose disposal is under way: the
  scope stays tracked and its caches stay filled until its pass has ended (`DestroyedOnceUnlessHit`,
  `OverrideDuringDisposalDestroysTwice`). The same overrides are the only ones whose errors a disposal does not report;
  all others reach the error with which the root's disposal ends (`ErrorsAreReported`, `RootReportsEveryError`).
- `cacheFor` (`packages/di/src/container.ts:855-865`) promises that a singleton registered on a request scope does not
  pollute the root's cache. It does when it is resolved from a scope created below that one (`OverrideReachesRoot`), and
  once the root has its own instance that scope gets this one in place of the override (`OverrideIsMissed`). A successful
  resolution by a fresh scope is right, and keeps the caches right, if and only if the root has registered whatever the
  scope hands to it for the tokens the resolution leads to (`CoherenceIsExact`). Where that fails for a singleton or a
  multi provider, `InheritedSingletonPollutes` and `InheritedMultiPollutes` say what happens.
- A request transaction begun in the context left over from a settled plain transaction is deferred to a set nobody reads
  any more: it stays tracked, and a shutdown that waits for it never disposes (`ShutdownCompletesUnlessLate`).
- A route parameter called `__proto__` is lost from the record, and repeated names keep the last value
  (`ParamsRebuildPath`). The textual route key takes two kinds of different routes for the same one, and no others: an
  unversioned route and one of the version `<none>`, and the root path under a version that spells out another route's
  parameter path and version (`KeyIsExact`). Such routes are refused as duplicates (`DifferentRoutesAreRefused`).
- A bootstrap that is still waiting for the lock client when the shutdown runs schedules its tasks afterwards
  (`BootstrapOutlivesShutdown`). After a shutdown a task is scheduled exactly if it is enabled and a bootstrap completed
  since with no failed one after it (`ScheduledAfterShutdown`); the caller of shutdown can tell from whether a bootstrap
  is under way (`ShutdownIsFinalUnlessStarting`).
- A configuration source with an own key `__proto__`, as `JSON.parse` yields it, makes the merge write into the object
  all plain objects inherit from (`ProtoKeyReachesPrototype`). Without such a key in a dictionary the merge meets, the
  result is right and shares nothing with the sources; the condition is exact (`MergeConfigSources`).
- `instantiate` on an alias (`packages/di/src/container.ts:1092-1093`) is reached by no caller, and alias providers of a
  multi token are resolved without being cached.

## Model

| member | source | states |
|---|---|---|
| CacheFreshness.StoredValueIsFresh | packages/cache-manager/src/service.ts:93-183 | On every schedule: when nothing concerning a key is in progress and the store holds a value written by a load, the value is outdated (a `del` of the key or a `reset` was issued after that load's loader was invoked) if and only if the loader itself deleted the key before it returned its promise, or a store call that was to remove the value failed |
| CacheFreshness.SelfDeletionIsMissed | packages/cache-manager/src/service.ts:114-144 | A concrete schedule in which a loader deletes its own key synchronously and the outdated value stays in the store |
| CacheFreshness.FailedRemovalIsForgotten | packages/cache-manager/src/service.ts:121-141 | A concrete schedule in which the load's own removal of what it wrote fails after a deletion during the write; the load settles and the outdated value stays, although its loader deleted nothing |
| CacheFreshness.MarksAreExact | packages/cache-manager/src/service.ts:93-183 | On every schedule a load counts as superseded, as deleted by its own loader, or as spared by a failing removal exactly if some action of the schedule made it so |
| CacheStoring.CurrencyIsExact | packages/cache-manager/src/service.ts:93-183 | On every schedule a load is outdated in its own eyes if and only if the cache was reset since its call began, its key was deleted while it was running, or a deletion noted for earlier lookups was left over when it was created |
| CacheStoring.UndisturbedLoadIsCurrent | packages/cache-manager/src/service.ts:114-141 | A load whose call neither a deletion of its key nor a reset has followed is current if and only if no noted deletion is left over when it is created, and one that is had been left over when the call began, which the table of pending invalidations tells |
| CacheStoring.PendingInvalidationsAreExact | packages/cache-manager/src/service.ts:157-167 | On every schedule the table of pending invalidations names exactly the keys for which a deletion came while calls were in their lookup and no load was running, with no reset and no end of a load of that generation since |
| CacheWriting.UndisturbedValueIsStored | packages/cache-manager/src/service.ts:93-148 | A call that no deletion or reset follows, with no deletion left over from before, has its value stored when it arrives with a valid time-to-live and no write of it fails, and the load does not erase it |
| CacheWriting.FreshValueIsStored | packages/cache-manager/src/service.ts:120-129 | When a load has settled, is not outdated, its value arrived with a valid time-to-live and no write of it failed, the value was written and not erased |
| CacheWriting.LeftOverDeletionSkipsStore | packages/cache-manager/src/service.ts:114-141 | A concrete schedule in which a deletion during a hit is left over, and the next call, which begins after it took effect, loads a value that is not stored |
| CacheWriting.LoaderRunsForMiss | packages/cache-manager/src/service.ts:99-143 | The call of every load had found nothing in the store, and no load of the key registered since the last reset was running when its loader was invoked |
| CacheWriting.MissRunsLoader | packages/cache-manager/src/service.ts:102-143 | A finished lookup invokes the loader exactly if it found nothing and no such load is running |
| CacheWriting.StoreIsExact | packages/cache-manager/src/service.ts:118-129 | On every schedule the store holds under a key exactly what the last write of it put there, if since then no deletion or reset has taken effect, no outdated load has removed it and it has not expired |
| CacheProtocol.SingleFlight | packages/cache-manager/src/service.ts:108-145 | Between two resets at most one load of a key is alive, and it is the entry of the in-flight table |
| CacheProtocol.MissJoinsRunningLoad | packages/cache-manager/src/service.ts:108-112 | A miss that finds a load of the current reset version alive invokes no second loader |
| CacheProtocol.PendingCountIsExact | packages/cache-manager/src/service.ts:24-50 | Across any number of resets the pending count of a key is the number of its current-generation calls inside their lookup window, and the key is absent exactly when there is none |
| CacheProtocol.ReachableInv | packages/cache-manager/src/service.ts:93-183 | Every reachable state keeps the table, store and counter invariants |
| CacheService.Service.Remember | packages/cache-manager/src/service.ts:93-102 | Entering `remember` counts the call under the current generation and changes nothing else |
| CacheService.Service.LookupFinished | packages/cache-manager/src/service.ts:104-120 | A hit or a running load ends the lookup; a miss creates an entry that is invalidated if a deletion of this generation is pending |
| CacheService.Service.LoaderReturned | packages/cache-manager/src/service.ts:143-148 | Registers the entry and leaves the lookup window |
| CacheService.Service.IsCurrent | packages/cache-manager/src/service.ts:121-127 | A load is current as long as it was not invalidated and no reset came in between; asked before the write and after it |
| CacheService.Service.FinishLoad | packages/cache-manager/src/service.ts:132-141 | Removes the load only if it is still the registered one, and a pending deletion only of its own generation |
| CacheService.Service.BeginPendingLoad | packages/cache-manager/src/service.ts:24-29 | Counts one more call of the key's generation |
| CacheService.Service.EndPendingLoad | packages/cache-manager/src/service.ts:31-50 | Counts one call off, dropping empty generations and empty keys |
| CacheService.Service.Del | packages/cache-manager/src/service.ts:157-169 | Invalidates the running load, or records the deletion for calls still in their lookup |
| CacheService.Service.Reset | packages/cache-manager/src/service.ts:176-183 | Starts a new generation and empties the tables |
| CronLockSafety.SuccessfulRunsNeverOverlap | packages/cron/src/distributed-lock-manager.ts:87-300 | On every schedule two runs of a key that report success, each started no later than one tick after the time-to-live less one renewal interval and before a shutdown release of its node, do not overlap between acquisition and the end of the body |
| CronLockSafety.SuccessfulRunHeldTheLock | packages/cron/src/distributed-lock-manager.ts:87-267 | In every state between the grant and the report, up to the instant the body finished, the lock register names the node of a successful run that started within the time-to-live less one renewal interval and before a shutdown release |
| CronLockSafety.ReportedInsideLease | packages/cron/src/distributed-lock-manager.ts:182-215 | When the renewals due have been caught up without an error, the body finished before the lease ran out |
| CronLockSafety.ReachableInv | packages/cron/src/distributed-lock-manager.ts:87-300 | Register, lease, renewal schedule and success invariants hold on every schedule |
| CronLockRelease.HeldIsUsedOrLost | packages/cron/src/distributed-lock-manager.ts:87-300 | In every state of every schedule, if the register names a node, the node has a grant, a run or a release to make, or it lost the lock by a failing release or a grant it never learned of, and the register has named it ever since |
| CronLockRelease.RequestIsGranted | packages/cron/src/distributed-lock-manager.ts:87-117 | A request is granted exactly if the register names nobody; otherwise it names a node that uses the lock or has lost it |
| CronLockRelease.ReleasedStaysFree | packages/cron/src/distributed-lock-manager.ts:148-150 | Once a release has taken effect, the register does not name the node until a later request of its own |
| CronLockRelease.LockIsHandedOver | packages/cron/src/distributed-lock-manager.ts:265-300 | Right after the release of the node that held the lock, the request of any other node is granted |
| CronLockRelease.OwnedExactly | packages/cron/src/distributed-lock-manager.ts:94-107 | A node takes a key for its own exactly if it has learned of a grant and no release of it has come back since, by the run or by the shutdown; a failed release leaves it so |
| CronLockRelease.KeptKeyFailedToRelease | packages/cron/src/distributed-lock-manager.ts:265-300 | A node that owns a key outside of a run has not managed to release it since its last run; a release that came back leaves no key owned |
| CronLockRelease.RenewalsFollowTimer | packages/cron/src/distributed-lock-manager.ts:117-142 | Until its body has ended, a run asks for exactly as many renewals as its timer has fired since it started |
| CronLockTightness.OverlapExactly | packages/cron/src/distributed-lock-manager.ts:87-300 | For all nodes, times-to-live and waits: some schedule lets a successful run overlap another that meets the conditions if and only if its own wait exceeds the bound or it started after a shutdown release |
| CronLockTightness.PossessionExactly | packages/cron/src/distributed-lock-manager.ts:87-267 | Likewise some schedule takes the lock from a successful run before its body finished if and only if the wait exceeds the bound, here without the extra tick, or the run started after a shutdown release |
| CronLockTightness.LateReplyOverlaps | packages/cron/src/distributed-lock-manager.ts:94-107 | Whenever the acquisition reply comes later than the bound, whatever the times-to-live, a schedule exists on which two successful runs overlap |
| CronLockTightness.ShutdownDuringAcquisitionOverlaps | packages/cron/src/service.ts:446-454 | However short the wait, a shutdown that releases a key left over from a failed release while the node acquires it again lets two successful runs overlap |
| CronLockMonitor.QueueDueCatchesUp | packages/cron/src/distributed-lock-manager.ts:182-194 | The catch-up loop keeps `nextRenewalDueAt = start + (attempts + 1) * interval` and ends with no renewal overdue |
| CronLockMonitor.FirstFailureDecides | packages/cron/src/distributed-lock-manager.ts:196-227 | Of any sequence of renewal outcomes the first that is no success decides the error |
| CronLockMonitor.RenewalMonitor.QueueDueRenewals | packages/cron/src/distributed-lock-manager.ts:182-194 | The loop queues exactly the overdue renewals |
| CronLockMonitor.RenewalMonitor.TimerFired | packages/cron/src/distributed-lock-manager.ts:120-129 | A timer tick queues one renewal unless the monitor was stopped |
| CronLockMonitor.RenewalMonitor.Stop | packages/cron/src/distributed-lock-manager.ts:137-144 | Stopping is for good and changes nothing else, also the second time |
| CronLockMonitor.RenewalMonitor.AttemptFinished | packages/cron/src/distributed-lock-manager.ts:196-227 | The first failure is kept; losses and failures are counted |
| HeapClone.FallbackClone | packages/core/src/utils.ts:15-98 | Cloning any finite heap terminates; the table is an injective map from exactly the objects reachable from the argument to fresh objects, each of which holds the image of its original; the source is not modified |
| HeapClone.CloneValue | packages/core/src/utils.ts:15-24 | A primitive is returned, an object already in the table yields its copy, any other object is entered and copied |
| HeapClone.CloneArray | packages/core/src/utils.ts:26-31 | The copy is entered into the table before its items are cloned and ends with their images in order |
| HeapClone.CloneMap | packages/core/src/utils.ts:46-55 | Cloned keys and values are put in order; distinct keys stay distinct |
| HeapClone.CloneSet | packages/core/src/utils.ts:57-66 | Cloned members are added in order; none is lost |
| HeapClone.CloneObject | packages/core/src/utils.ts:86-97 | Own properties are defined in order; data values are cloned, accessors shared |
| HeapClone.PutAppends | packages/core/src/utils.ts:50-52 | Because images of distinct keys are distinct, every put of the copy loop appends |
| HeapClone.ReachableIsInTable | packages/core/src/utils.ts:15-98 | Everything reachable from a copied object has been copied |
| HeapClone.FollowCommutes | packages/core/src/utils.ts:124-126 | Walking the copy along any path yields the image of what walking the original yields |
| HeapClone.SharingIsPreserved | packages/core/src/utils.ts:124-126 | Two paths end at the same value of the original exactly when they do in the copy |
| DiGraph.VerdictIsReachability | packages/di/src/container.ts:523-585 | The request-scope verdict is true exactly when a walk of dependencies, aliases and multi providers reaches a request-scoped provider or closes a cycle |
| DiGraph.StaleIsDependency | packages/di/src/container.ts:1348-1403 | The override scan marks a cached token exactly when a walk leads from it to the overridden token |
| DiGraph.SearchFindsWalk | packages/di/src/container.ts:523-546 | A positive search has a witness walk |
| DiGraph.WalkIsFound | packages/di/src/container.ts:523-546 | Every witness walk is found by the path-set search |
| DiContainer.CurrentPlanIsRight | packages/di/src/container.ts:1006-1014 | A cached plan whose lineage revision string is current equals what the uncached computation gives now |
| DiContainer.WritePlanKeeps | packages/di/src/container.ts:1016-1023 | Writing a computed plan keeps all plans of the tree justified |
| DiContainer.AdvanceKeeps | packages/di/src/container.ts:1025-1035 | Changing the registrations of one container keeps the plans of all containers justified, also of those below it |
| DiContainer.AddScopeKeeps | packages/di/src/container.ts:357-366 | So does creating a request scope |
| DiRevision.RevisionStringInjective | packages/di/src/container.ts:1000-1004 | For a fixed number of ancestors equal revision strings mean equal revisions all along the chain |
| DiContainerTree.ContainerTree.ReadCachedPlan | packages/di/src/container.ts:1006-1014 | A plan is returned exactly when there is one with the current revision string, and it is right |
| DiContainerTree.ContainerTree.LookupProvider | packages/di/src/container.ts:842-853 | Returns the nearest registration of the lineage, through the plan caches |
| DiContainerTree.ContainerTree.CollectMultiProviders | packages/di/src/container.ts:501-521 | Returns the multi providers accumulated from the root down, cut off at overriding containers |
| DiContainerTree.ContainerTree.ResolveEffectiveProvider | packages/di/src/container.ts:1191-1236 | The alias loop returns the provider behind a token, or the alias cycle |
| DiContainerTree.ContainerTree.GraphRequiresRequestScope | packages/di/src/container.ts:523-546 | The recursion on a shared mutable visited set returns the verdict and leaves the set as it was |
| DiContainerTree.ContainerTree.HasRequestScopedDependency | packages/di/src/container.ts:337-349 | Returns the verdict of the present graph, cached or not |
| DiContainerTree.ContainerTree.Register | packages/di/src/container.ts:205-247 | Refuses exactly the registrations after a disposal in the hierarchy and the conflicting ones, otherwise adds the provider and advances the revision |
| DiContainerTree.ContainerTree.Override | packages/di/src/container.ts:263-319 | Refuses exactly the overrides after a disposal in the hierarchy and the mixed or repeated ones, otherwise replaces everything the container had for the token and advances the revision |
| DiContainerTree.ContainerTree.CreateRequestScope | packages/di/src/container.ts:357-366 | Refused exactly when the container or an ancestor has been disposed, otherwise adds an empty scope |
| DiRegistrations.LookupIsNearest | packages/di/src/container.ts:842-853 | A lookup finds the registration of the nearest container of the lineage that has one, and none if none has |
| DiRegistrations.CollectedFromTheRoot | packages/di/src/container.ts:501-521 | The collected multi providers are those of the contributing containers, outermost first, each container's in the order of registration |
| DiRegistrations.OnlyUnregisteredIsSkipped | packages/di/src/container.ts:573-585 | A dependency is left out exactly if it is optional and no container of the lineage registers its token |
| DiRegistrations.RefusedRegistrations | packages/di/src/container.ts:459-499 | When a registration is refused as a scope mismatch, when as a duplicate, and when it is accepted, told by which containers of the lineage have what for the token |
| DiRegistrations.RefusedOverrides | packages/di/src/container.ts:263-319 | An override is refused exactly if it mixes single and multi providers or gives several single ones |
| DiRegistrations.DisposedAbove | packages/di/src/container.ts:445-451 | A container counts as disposed exactly if it or one of its ancestors is |
| DiRegistrations.RegisteredIsFound | packages/di/src/container.ts:205-250 | A registered single provider is what the container finds from then on; nothing else changes |
| DiRegistrations.RegisteredIsCollected | packages/di/src/container.ts:205-250 | A registered multi provider is collected last; nothing else changes |
| DiRegistrations.OverrideReplaces | packages/di/src/container.ts:263-319 | After an override the container finds or collects exactly the new providers for the token; nothing changes for other tokens |
| DiRegistrations.ChangeShowsBelow | packages/di/src/container.ts:1025-1035 | A change in a container shows in its own lineage and in those of the scopes below it, and in no other |
| DiRegistrations.NewScopeInherits | packages/di/src/container.ts:357-366 | A new request scope sees the registrations of its parent and has none of its own |
| DiRegistrations.RevisionChangesWithLineage | packages/di/src/container.ts:1000-1014 | A revision string, and with it every plan written under it, stays current exactly while no container of the lineage changes |
| DiRegistrations.WrittenPlanIsCurrent | packages/di/src/container.ts:1016-1023 | A written plan is there and current, so it is the one read next |
| DiResolver.Resolver.ResolveToken | packages/di/src/container.ts:587-637 | Resolution terminates on every provider graph, equals the specification function, and leaves `chain` and `activeTokens` as they were on success and failure |
| DiResolver.Resolver.ResolveMulti | packages/di/src/container.ts:695-721 | Likewise for one multi provider |
| DiResolver.Resolver.ResolveScoped | packages/di/src/container.ts:731-752 | Likewise for a scoped or singleton instance |
| DiResolver.Resolver.Instantiate | packages/di/src/container.ts:1086-1134 | Likewise for the construction of one provider |
| DiResolver.Resolver.ResolveDeps | packages/di/src/container.ts:1260-1268 | Likewise for dependencies, awaited one after the other |
| DiResolver.ResolutionPath.Leave | packages/di/src/container.ts:798-813 | Leaving a token restores the chain and the active set, which always agree |
| DiResolveFacts.FailureIsReal | packages/di/src/container.ts:587-772 | Every error of a resolution names a real cause: a path of dependencies that ends in a repeated token, one that ends at a token without a provider, a request-scoped provider, a singleton the scope check objects to, or a constructor that threw |
| DiResolveFacts.NothingWrongResolves | packages/di/src/container.ts:378-387 | When the verdict for a token is negative, everything it leads to is registered and no constructor throws, the root resolves it |
| DiScopeCheck.SingletonCheckIsExact | packages/di/src/container.ts:1117-1187 | The check objects to a singleton exactly if a walk along its dependencies, aliases followed, that does not come back to it leads to a request-scoped provider or into a cycle of aliases |
| DiScopeCheck.AstraySingletonFails | packages/di/src/container.ts:1117-1135 | Such a singleton is never constructed: unless an instance is cached, resolving it fails and changes nothing |
| DiScopeCheck.EffectiveIsExact | packages/di/src/container.ts:1191-1236 | Following aliases finds the provider, or the absence of one, that they lead to, and reports a cycle exactly if they lead nowhere |
| DiResolveFacts.CleanVerdictResolves | packages/di/src/container.ts:331-349 | If the verdict is false, resolving the token on the root never fails with a circular-dependency or request-scope error |
| DiResolveCaches.ResolveTokenSound | packages/di/src/container.ts:587-914 | A resolution only adds to the caches and adds nothing for the tokens it is in the middle of |
| DiResolveCaches.RootCachesStayPure | packages/di/src/container.ts:695-914 | For any depth of request scopes no instance in the root's caches was built, directly or not, from a request-scoped provider |
| DiResolveCaches.SingletonIsShared | packages/di/src/container.ts:731-772 | Resolving a root singleton leaves an entry at the root; as long as that entry is there, whatever else has changed, the root and every scope that does not shadow it get that instance, with nothing constructed |
| DiSharing.RequestIsShared | packages/di/src/container.ts:731-754 | A request scope constructs an instance of its own once: a resolution, at the top or for a dependency, leaves an entry in its cache, and while that is there resolving the token again returns the same instance, constructs nothing and changes no cache |
| DiSharing.EachScopeBuildsItsOwn | packages/di/src/container.ts:731-754 | In a scope whose cache has no entry the resolution constructs a new instance |
| DiSharing.MultiIsShared | packages/di/src/container.ts:681-723 | A multi token without aliases and transient providers is shared likewise, its singletons in the root's cache and the others in the scope's |
| DiSharing.TransientIsNeverShared | packages/di/src/container.ts:587-640 | Two resolutions of a transient provider return instances of different identity and leave no cache entry for its token |
| DiSharing.TransientMultiIsNeverShared | packages/di/src/container.ts:695-706 | The same holds for transient multi providers |
| DiCoherence.TokenCoherent | packages/di/src/container.ts:587-772 | At any depth of scopes: if, for every token the resolution leads to, what a scope hands to the root is registered there, the resolution keeps the caches coherent and returns an instance built, through its whole dependency tree, by the providers the graph gives |
| DiCoherence.SingletonsComeFromRoot | packages/di/src/container.ts:766-772 | The condition holds for every token whenever no scope strictly between the resolving one and the root has a singleton registered, in particular for every request scope created by the root |
| DiNested.CoherenceIsExact | packages/di/src/container.ts:587-772 | The condition is exact: for any scope whose own caches hold nothing built against it, a fresh one say, a successful resolution keeps the caches coherent and returns what the graph stands for if and only if the condition holds for the resolved token |
| DiNested.InheritedSingletonPollutes | packages/di/src/container.ts:731-772 | A singleton that an enclosing scope has and the root has not is never resolved rightly: if the root has cached its own instance, that one is returned with nothing constructed and is not what the scope's graph stands for; otherwise the scope's instance gets into the root's cache, where it follows no registration of the root |
| DiNested.InheritedMultiPollutes | packages/di/src/container.ts:681-723 | A successful resolution of a multi token puts every singleton multi provider that an enclosing scope has and the root has not into the root's cache, which is not coherent from then on |
| DiOverrideRuns.OverrideReachesRoot | packages/di/src/container.ts:855-875 | Concretely: an override in a request scope stays out of the root's cache for that scope, but gets there when resolved from a scope created below it, and the root returns it from then on |
| DiOverrideRuns.OverrideIsMissed | packages/di/src/container.ts:731-772 | Concretely: once the root has resolved the token, the overriding scope gets its override, but a scope created below it gets the root's instance |
| DiOverride.YieldsSurvives | packages/di/src/container.ts:1348-1403 | An instance whose token does not lead to the overridden one is still what the new graph would build |
| DiOverride.KeptMultiIsIndependent | packages/di/src/container.ts:1360-1403 | An entry of a multi provider that the scan keeps has no dependency leading to the overridden token, although the scan starts with the provider's own token as visited |
| DiOverrideRuns.CachesFollowTheGraph | packages/di/src/container.ts:263-319 | After any run of registrations before the first instance, resolutions, overrides and scope changes, every cached instance was built by the provider the current graph gives for its token, recursively |
| DiOverrideRuns.ResolutionFollowsTheGraph | packages/di/src/container.ts:378-387 | After any such run a resolution in a request scope returns what the current graph stands for |
| DiOverrideRuns.OverrideIsExact | packages/di/src/container.ts:1300-1346 | An override removes exactly the entries that lead to the overridden token and leaves all others untouched |
| DiOverrideRuns.OverrideCoherent | packages/di/src/container.ts:263-319 | One override keeps the root and every request scope coherent |
| DiOverrideRuns.SingletonIsKept | packages/di/src/container.ts:1300-1346 | A singleton in the root's cache stays the shared instance through any run whose overrides concern nothing it depends on |
| DiDisposalRuns.DestroyedOnceUnlessHit | packages/di/src/container.ts:395-443 | When the root has been disposed, every disposable instance that ever entered a cache was destroyed, whichever calls threw: exactly once if no override dropped it from a scope whose disposal was under way, otherwise twice once its stale task has run |
| DiDisposalRuns.OverrideDuringDisposalDestroysTwice | packages/di/src/container.ts:1270-1346 | A concrete run in which the root is overridden while a tracked scope awaits an `onDestroy`, and the instance is destroyed twice |
| DiDisposalRuns.CachesEndEmpty | packages/di/src/container.ts:934-998 | On every run, with any calls of `onDestroy` throwing, the caches of a disposed container are empty, and so are those of a scope that is still live when the root has been disposed |
| DiDisposalRuns.ErrorsAreReported | packages/di/src/container.ts:934-985 | A disposal reports every error its own pass threw, in the order of the calls, and every error of a stale task except those left over, which belong to instances an override dropped while the disposal was under way |
| DiDisposalErrors.RootReportsEveryError | packages/di/src/container.ts:413-443 | Over any interleaving: the root's disposal fails with every error thrown for an instance of its own or of a scope it waited for, as often as it was thrown; only errors of stale tasks that ended too late are missing, and these belong to instances an override dropped while the disposal of their scope was under way |
| DiDisposalErrors.AwaitedExactly | packages/di/src/container.ts:413-428 | Over any interleaving: the root waits for a request scope if and only if, when its disposal began, the scope had constructed an instance and was not yet disposed; its own disposal may have been under way already, and from then on it is in disposal |
| DiDisposalRuns.PassesAreOrdered | packages/di/src/container.ts:413-443 | Each disposal pass destroys the disposable entries in reverse entry order, and the root's pass comes after those of all request scopes |
| DiDisposalOrder.LaterGoesFirst | packages/di/src/container.ts:907-985 | Of two instances destroyed in one pass the one destroyed first entered later: both entered the same cache in the other order, or it is of a multi provider and the other is not |
| DiDisposalRuns.CreatorIsParent | packages/di/src/container.ts:357-366 | A request scope keeps the container that created it as its parent in every later state |
| DiDisposalRuns.ReachableInv | packages/di/src/container.ts:395-1064 | The disposal law holds in every state of every interleaving |
| DiDisposal.CollectDisposableInstances | packages/di/src/container.ts:947-971 | The loop returns the disposable instances in entry order, each once, and the reasons of the rejected entries |
| DiDisposal.DisposeInstancesInReverseOrder | packages/di/src/container.ts:973-985 | Every `onDestroy` is called in reverse order whichever of them throw, and every failure is collected |
| RoutePath.NormalizeKeepsSegments | packages/http/src/route-path.ts:82-87 | Normalization keeps the segments, is idempotent, and identifies exactly the paths with the same segments |
| RoutePath.ParseRoundTrip | packages/http/src/route-path.ts:48-103 | A path parses exactly when all its segments are well formed, and the parsed segments spell its normal form |
| RoutePath.RenderingIsInjective | packages/http/src/route-path.ts:10-24 | Different parsed patterns spell different paths |
| RoutePath.MatchRoutePath | packages/http/src/route-path.ts:130-154 | The single loop that fills while it compares equals the specification of a match |
| RoutePath.MatchParameterizedRoute | packages/http/src/mapping.ts:283-310 | The two-loop form equals the same specification |
| RoutePath.ParamsRebuildPath | packages/http/src/route-path.ts:138-153 | Replacing the parameters of a matched pattern by the returned record rebuilds the request exactly when equal names got equal values and no parameter is called `__proto__` |
| RoutePath.DistinctParamsRebuildPath | packages/http/src/route-path.ts:130-154 | With distinct names, none of them `__proto__`, the record rebuilds the normalized path of every matching request |
| RouteTable.EffectivePathIsNormal | packages/http/src/mapping.ts:43-59 | Every effective path, with or without version prefix, is normalized |
| RouteSources.DescribedAsDeclared | packages/http/src/mapping.ts:312-353 | A route is described under its own id and method and with its own version, or the controller's if it has none; its path consists of the version prefix in URI versioning, the segments of the controller's base path, and those of its own path |
| RouteSources.VersionIsTrimmed | packages/http/src/mapping.ts:61-63 | Blanks around a version and one leading v or V are dropped; every version has the form to which this applies (`VersionHasCore`) |
| RouteSources.VersionIsOneSegment | packages/http/src/mapping.ts:46-58 | A version without slashes becomes one segment, v and the version |
| RouteTable.BuildDescriptorList | packages/http/src/mapping.ts:359-375 | Accepts the routes exactly when all paths parse and all route keys differ |
| RouteTable.FindConflict | packages/http/src/mapping.ts:361-372 | The loop with the set of seen keys finds a conflict exactly when two keys are equal, and reports a key that occurs twice |
| RouteTable.AcceptedRoutesAreDistinct | packages/http/src/mapping.ts:359-375 | No two accepted routes have the same method, path and version |
| RouteTable.KeyIsExact | packages/http/src/mapping.ts:364-365 | Two described routes share a key if and only if their methods agree and either path and version agree, or one is unversioned and the other of the version `<none>`, or one is the root path of a version `x:v` and the other the path `/:x` of version `v` |
| RouteTable.DifferentRoutesAreRefused | packages/http/src/mapping.ts:359-375 | Two routes of different paths and versions that are refused as duplicates of each other |
| RouteMatch.BuildDescriptorIndex | packages/http/src/mapping.ts:195-242 | Every bucket of the two-tier index lists exactly its descriptors in registration order |
| RouteMatch.FindStaticMatch | packages/http/src/mapping.ts:244-281 | The nested loops find the first descriptor of the requested version, else the first unversioned one |
| RouteMatch.FindParameterizedMatch | packages/http/src/mapping.ts:415-448 | The candidate loop does the same over the fitting parameterized routes |
| RouteMatch.Match | packages/http/src/mapping.ts:391-453 | The indexed match, on the request method in upper case, finds what the bucket specification finds |
| RouteOrder.MatchIsBest | packages/http/src/mapping.ts:391-453 | A request is matched to the eligible descriptor that is best by literal path, requested version, own method and registration order, with the parameters its pattern binds; it is matched to none only if no descriptor is eligible |
| RouteSources.QueryIsRequest | packages/http/src/mapping.ts:391-407 | What a match depends on is what the request says: its path's segments, its method in upper case and, unless the version is in the path, what its first usable version value asks for |
| RouteSources.VersionsAgree | packages/http/src/mapping.ts:155-189 | A versioned route is of the requested version exactly if the first usable value of the request normalizes to the same version, an unversioned one exactly if the request has none |
| RouteOrder.FoundIsScan | packages/http/src/mapping.ts:391-453 | The index refines an ordered scan of all descriptors, tier by tier |
| RouteOrder.DescribedPathsAreNormal | packages/http/src/mapping.ts:312-357 | Descriptors made from route sources meet the hypothesis of MatchIsBest |
| GraphqlBudget.Walker.WalkSelectionSet | packages/graphql/src/guardrails.ts:200-226 | The walk terminates on every document, counts exactly the fields of the inlined selections at their depths, and leaves the active fragments as it found them |
| GraphqlBudget.Walker.Walk | packages/graphql/src/guardrails.ts:228-248 | Likewise for one field, inline fragment or spread |
| GraphqlBudget.AnalyzeGraphqlOperation | packages/graphql/src/guardrails.ts:170-253 | The metrics are field count, sum of depths and height of the resolved operation with all fragments inlined |
| GraphqlBudget.EvaluateGraphqlRequestLimits | packages/graphql/src/guardrails.ts:128-168 | Returns exactly one error per exceeded limit, in the order depth, complexity, cost, measured on the inlined operation |
| GraphqlBudget.MetricsAreOrdered | packages/graphql/src/guardrails.ts:200-206 | For every operation height <= fields <= cost <= fields * height, and cost >= height * (height + 1) / 2 |
| GraphqlBudget.AcyclicDocumentsAreInlined | packages/graphql/src/guardrails.ts:232-248 | For documents without cyclic spreads the active set is irrelevant: the budget is that of plain inlining |
| GraphqlBudget.ResolvedIsOperation | packages/graphql/src/guardrails.ts:255-264 | The resolved definition is an operation |
| GraphqlDocuments.OperationIsChosen | packages/graphql/src/guardrails.ts:255-264 | A request that names an operation gets the first one of that name in the document; one that names none gets the document's only operation; otherwise there is none |
| GraphqlDocuments.LastFragmentCounts | packages/graphql/src/guardrails.ts:174-186 | Of several fragments of one name the last one in the document counts |
| GraphqlDocuments.InlineFragmentIsTransparent | packages/graphql/src/guardrails.ts:200-248 | Writing the selections of an inline fragment in its place changes nothing |
| GraphqlDocuments.SpreadIsItsFragment | packages/graphql/src/guardrails.ts:200-248 | Without cyclic spreads, writing a fragment's selections in place of a spread of it changes nothing |
| GraphqlDocuments.FieldAddsALevel | packages/graphql/src/guardrails.ts:200-248 | A field around selections adds itself to the number of fields, one to the height, and one for itself and each field below to the cost |
| GraphqlDocuments.SelectionsAddUp | packages/graphql/src/guardrails.ts:200-248 | Selections side by side add their fields and costs; the height is the greater one |
| DrizzleProtocol.NothingActiveAtDispose | packages/drizzle/src/database.ts:139-157 | When a dispose hook can run, and ever after, no request transaction and no transaction scope is tracked, the counter is zero and none can start |
| DrizzleProtocol.StartsUntilShutdown | packages/drizzle/src/database.ts:355-366 | Transactions of each kind start exactly until the first shutdown begins |
| DrizzleProtocol.StoppedExactly | packages/drizzle/src/database.ts:139-157 | The database is stopped exactly if a shutdown has finished and none has begun since |
| DrizzleProtocol.TrackedUntilSettled | packages/drizzle/src/database.ts:237-335 | A request transaction nested in an open plain one is tracked exactly until that one settles, an own one until it ends; each is untracked at most once; everything tracked during shutdown has been aborted |
| DrizzleProtocol.StatusCountIsExact | packages/drizzle/src/database.ts:373-390 | The status counter always equals the number of handles that count, so it is never negative |
| DrizzleProtocol.ShutdownCompletesUnlessLate | packages/drizzle/src/database.ts:139-157 | Once all transactions have ended, a waiting shutdown can dispose if and only if it does not wait for a request transaction that began in the context of an already settled plain transaction |
| DrizzleProtocol.LateBlocksShutdown | packages/drizzle/src/database.ts:313-333 | Such a late request transaction is never released, and a shutdown that waits for it never disposes |
| DrizzleProtocol.LateHandleExists | packages/drizzle/src/database.ts:250-257 | A concrete run with such a late request transaction |
| DrizzleDatabase.Database.TrackActiveRequestTransaction | packages/drizzle/src/database.ts:373-378 | A new handle is tracked and counted |
| DrizzleDatabase.Database.MarkRequestTransactionInactiveForStatus | packages/drizzle/src/database.ts:385-390 | The counter goes down once per handle, however often it is called |
| DrizzleDatabase.Database.UntrackActiveRequestTransaction | packages/drizzle/src/database.ts:380-383 | The handle is untracked and settled |
| DrizzleDatabase.Database.EndPlain | packages/drizzle/src/database.ts:250-256 | Releases exactly the deferred handles and lowers the counter by those that still counted |
| DrizzleDatabase.Database.BeginNested | packages/drizzle/src/database.ts:311-315 | Refused once shutdown has begun with nothing changed, otherwise exactly one new handle is tracked, counted and deferred to the scope |
| DrizzleDatabase.Database.BeginPlain | packages/drizzle/src/database.ts:224-239 | Refused once shutdown has begun, otherwise tracked |
| DrizzleDatabase.Database.BeginShutdown | packages/drizzle/src/database.ts:139-150 | Aborts and waits for exactly what is tracked at that moment |
| ConfigMerge.MergedPath | packages/config/src/load.ts:125-146 | For the merge of values, which ConfigHeap.MergeConfigEntries ties to the code for every source without an own key `__proto__`: a path the later source does not touch keeps its value; one it touches takes the later value, merged into the earlier if it is a dictionary |
| ConfigMerge.LastTouchDecides | packages/config/src/load.ts:148-156 | For any list of sources, on the same condition, the last one that touches a path decides: its value, a dictionary, or none if it blocks the path |
| ConfigMerge.LeafIsLastDefinition | packages/config/src/load.ts:148-156 | On the same condition, a leaf of the merged configuration is exactly what the last source to touch its path has there |
| ConfigMerge.DottedKeyIsPath | packages/config/src/service.ts:56-78 | With dot-free keys a dotted key yields what the path of its parts has in the merged configuration; where the path leads into an array, it is followed by index in the array of the last source to touch that prefix |
| ConfigHeap.MergeConfigEntries | packages/config/src/load.ts:125-146 | The in-place merge runs through exactly if no dictionary it meets in the source has an own key `__proto__`; then the target becomes the right-biased deep merge, only its own objects and new ones are written, and it shares none with the source, neither inside dictionaries nor inside arrays. Otherwise it stops at the first such key with the value found there |
| ConfigHeap.MergeConfigSources | packages/config/src/load.ts:148-156 | The merge keeps clear of prototypes if and only if no source has a dictionary with an own key `__proto__` outside arrays; then the result stands for the merge of all sources, consists of new objects, also inside arrays, and every existing object is as it was; otherwise a dictionary under the first such key is merged into the object that all plain objects inherit from |
| ConfigHeap.ProtoKeyReachesPrototype | packages/config/src/load.ts:125-146 | A concrete source, as a JSON text yields it, whose merge writes an entry into the object that all plain objects inherit from |
| ConfigClone.CloneConfigDictionary | packages/config/src/clone.ts:9-15 | The deep copy of a value means the same, consists of new objects, exactly one for each object of the original, and leaves every existing object as it was |
| ConfigService.Service.Resolve | packages/config/src/service.ts:56-78 | A key resolves as a whole if the configuration has it, otherwise part by part through own properties |
| ConfigReload.ReloadIsTransactional | packages/config/src/load.ts:323-376 | Whenever no reload is running nothing is pending and the current snapshot is the initial or the latest accepted one, for any mix of nested reloads, failed validations and throwing listeners |
| ConfigReload.ServiceFollowsReloader | packages/config/src/reload-module.ts:96-125 | From the first accepted reload on the service shows the reloader's current snapshot at every moment; before it, its own |
| ConfigReload.EveryReloadIsServed | packages/config/src/load.ts:344-376 | No reload is forgotten: when the listeners accept and the run comes to rest, none was asked for since the last resolution began; otherwise the next resolution begins at once, for the last reason asked for since |
| ConfigReload.ResolvedIsPublished | packages/config/src/load.ts:323-342 | While the listeners are called, and when they accept, reloader and service show the snapshot resolved last, and that is the one that counts as accepted |
| ConfigReload.RoundIsARun | packages/config/src/load.ts:323-376 | Each round of the reload loop is a run of the step system: it fails and leaves both snapshots as they were, or its snapshot is accepted and the next resolution is for the last reload asked for meanwhile |
| ConfigReload.ReloadManager.ApplyReload | packages/config/src/load.ts:344-376 | Rounds are served until one asks for nothing or fails; every round before it succeeded and asked for more, and the next one serves the last reason asked for. Success publishes the last round's snapshot, failure leaves what the round before published, and nothing stays pending |
| ConfigReload.ReloadManager.ApplyReloadNow | packages/config/src/load.ts:323-342 | Publishes the resolved snapshot and takes it back if a listener throws |
| ConfigReload.ReloadManager.Forward | packages/config/src/reload-module.ts:103-116 | Swaps the service's snapshot, calls the listeners and restores it if one throws |
| CronScheduler.SchedulerIsConsistent | packages/cron/src/service.ts:195-325 | In every reachable state a registered task has a scheduled handle exactly when the service is started and the task enabled, is running exactly while a tick holds it, and is held by at most one tick |
| CronScheduler.ScheduledAfterShutdown | packages/cron/src/service.ts:433-454 | Whatever happens after the first shutdown, a registered task is scheduled if and only if it is enabled and a bootstrap completed after the shutdown with no failed one since |
| CronScheduler.ShutdownIsFinalUnlessStarting | packages/cron/src/service.ts:327-342 | As long as no bootstrap begins afterwards, the service can be started again after the first shutdown if and only if a bootstrap was under way at that moment |
| CronScheduler.BootstrapOutlivesShutdown | packages/cron/src/service.ts:327-342 | A concrete run in which a bootstrap that was waiting during the shutdown schedules its tasks afterwards |
| CronSwitches.RegisteredExactly | packages/cron/src/service.ts:195-205 | A name is registered exactly if it was added or found by a bootstrap, and neither removed nor swept away by a failed bootstrap since |
| CronSwitches.EnabledExactly | packages/cron/src/service.ts:213-261 | A registered task is enabled exactly if, since its registration or the last accepted `enable`, it was not disabled and, being a timeout, not completed |
| CronSwitches.TickRunsExactly | packages/cron/src/service.ts:591-608 | A tick starts the task exactly if it is enabled and no other tick is running it; otherwise it leaves no trace |
| CronSwitches.ExpressionExactly | packages/cron/src/service.ts:290-325 | A cron task has the expression it was registered with, or that of the last accepted update |
| CronSwitches.StartedExactly | packages/cron/src/service.ts:327-342 | The service is started exactly if a bootstrap has succeeded and neither a bootstrap has failed nor the first shutdown has come since |
| CronSwitches.BootstrapsAddUp | packages/cron/src/service.ts:327-342 | The bootstraps under way are those begun while the service was not started, less those that have ended; one that meets another under way counts as a second |
| CronService.CronLifecycleService.RegisterTask | packages/cron/src/service.ts:464-484 | A duplicate or unschedulable task is not registered |
| CronService.CronLifecycleService.Enable | packages/cron/src/service.ts:213-239 | A task that cannot be scheduled stays disabled |
| CronService.CronLifecycleService.Disable | packages/cron/src/service.ts:247-261 | The task is disabled, the handle it had is stopped and no other |
| CronService.CronLifecycleService.Remove | packages/cron/src/service.ts:195-205 | The task is unregistered, the handle it had is stopped and no other; the other tasks are untouched |
| CronService.CronLifecycleService.UpdateCronExpression | packages/cron/src/service.ts:290-325 | A failing scheduler leaves expression and handle as they were; otherwise the old handle is stopped and no other |
| CronService.CronLifecycleService.StopAllScheduledTasks | packages/cron/src/service.ts:690-694 | Every task loses its handle, and exactly those handles are stopped |
| CronService.CronLifecycleService.StartTasks | packages/cron/src/service.ts:410-431 | Startup schedules every enabled task; if one cannot be scheduled, every handle created is stopped and every task forgotten |
| CronService.CronLifecycleService.CompleteTimeoutTask | packages/cron/src/service.ts:562-571 | A timeout completes by name |

## Left out

- CacheFreshness.StoredValueIsFresh: does not model `close()` racing live loads, nor a store call that fails but takes effect nevertheless.
- CronLockSafety.SuccessfulRunsNeverOverlap: is about one key with one task per node; two tasks that share a key on one node share its owner id and are not excluded from each other.
- CronLockSafety.ReportedInsideLease: the clock of the store and those of the nodes are one clock.
- HeapClone.FallbackClone: does not model Date, RegExp, typed arrays, buffers and sparse arrays, whose copies are leaves, what a prototype contains, or the `structuredClone` path.
- HeapClone.CloneMap: insertion order of a Map and a Set is the order of a sequence of entries; a key is looked up by identity or primitive value.
- DiContainerTree.ContainerTree.Register: the containers of a tree are entries of one table, so aliasing between separate container objects is not captured; one provider per call, the calls of a list being made in turn.
- DiContainerTree.ContainerTree.Override: one token per call; the grouping of a provider list by token and the errors of a provider that is no provider at all are not modelled.
- DiResolver.Resolver.ResolveToken: concurrent resolutions, and with them pending cache entries, are not modelled; the cycle check of aliases and the override scan are recursive functions here, loops or recursions on mutable sets there.
- DiOverrideRuns.CachesFollowTheGraph: only the root registers and overrides, with one level of request scopes; overrides within a request scope are the subject of DiNested.CoherenceIsExact, for one resolution at a time, and registrations after an instance exists are not covered.
- DiDisposalRuns.DestroyedOnceUnlessHit: each instance enters one cache once, when its construction has succeeded; a second `dispose()` after a failed one, which finds empty caches, is not modelled.
- DiDisposalErrors.RootReportsEveryError: an error is named by the instance whose `onDestroy` threw it; the error object itself, and the flattening of an aggregate error that an `onDestroy` throws, are not modelled.
- RouteMatch.Match: upper case is that of the letters a to z; header, media-type and custom version extraction are inputs.
- RouteTable.BuildDescriptorList: decorators, metadata stores and the other fields of a handler descriptor are not modelled.
- GraphqlBudget.EvaluateGraphqlRequestLimits: limits are integers; default limits, the introspection rule and the plugin hooks are not modelled.
- DrizzleProtocol.TrackedUntilSettled: abort signals are a flag per handle; what user callbacks and the database do, and a database without transactions, are not modelled.
- DrizzleDatabase.Database.EndPlain: the handles and scopes are heap objects; the step system numbers them.
- ConfigMerge.LeafIsLastDefinition: cyclic sources and class instances other than plain objects (which the code treats as dictionaries of their own enumerable keys) are not modelled.
- ConfigHeap.MergeConfigEntries: the objects are entries of one heap table; what the merge does after the first key `__proto__` of a source, and what it does there with an array or null, is not followed.
- ConfigClone.CloneConfigDictionary: one table-driven copy stands for `structuredClone` and its fallback; cyclic values are the subject of HeapClone.
- ConfigReload.ReloadManager.ApplyReload: a reload whose listeners ask for another reload for ever does not end and has no script here; the file watcher, `close()` during a reload, error listeners and error tagging are not modelled.
- CronScheduler.SchedulerIsConsistent: speaks of the handle field; a timer that a running timeout leaves behind when its task is disabled and enabled again, or removed and added again, is not tracked.
- CronService.CronLifecycleService.StartTasks: decorator discovery is part of the registered tasks; validation of names, durations and cron expressions is not modelled.
- File system, `fs.watch`, dotenv, hashing, Redis and database drivers, promises and timers themselves: they appear only as steps and inputs.
- Status snapshots, decorators, discovery, module wiring, command line, transports, metrics, version comparison and catalogue lookup: plumbing or one-branch facts that would add only easy members.
