# HPA collector reconciliation (kube-metrics-adapter), modelled in Dafny

This project models how the HPA provider of kube-metrics-adapter decides
which metric collectors should run. It has three parts:

- **Change detection (`equalHPA`).** Two HorizontalPodAutoscalers are the
  same when their metadata and spec agree. The resource version is
  masked out and the status is never compared.
- **The collector scheduler (`CollectorScheduler`).** A table maps an HPA
  reference and a metric type name to the cancel handle of the runner
  polling that metric.
  - `Add` cancels any runner already stored for that key, then starts a
    new runner and stores its handle.
  - `Remove` cancels every runner stored under a reference and drops the
    reference from the table.
- **The reconciliation pass (`updateHPAs`).** It lists the HPAs. Every
  new or changed HPA is re-parsed and its collectors are rebuilt and
  added. The HPA is cached only if every collector was built. Every
  reference that was cached before the pass and is not cached after it
  is removed from the scheduler.

Modules:

- `wrappers.dfy` (`Wrappers`): `Option`, `Result` and `Error`. These stand
  for Go's `(value, err)` returns.
- `autoscaler.dfy` (`Autoscaler`): the HPA record, `ResourceRef` and
  `EqualHpa`, with its lemmas.
- `scheduling.dfy` (`Scheduling`): the scheduler state and its invariant
  `Valid`, plus `New`, `Add`, `Remove` and `RemoveRefs`.
- `provider.dfy` (`Provider`): per-HPA setup (`BuildCollectors`,
  `SetupHpa`), the listing loop (`PlanPass`), the whole pass as a function
  (`Reconcile`), and as methods (`RemoveStale`, `UpdateHpas`).
- `properties.dfy` (`ProviderProperties`): lemmas about whole passes.

How runners and handles are represented:

- A runner is a task id. It is live until it is cancelled.
- Besides the table, the scheduler state records every task ever started
  (`tasks`: the key and collector it was started for) and the set of
  cancelled tasks.
- These two fields have no runtime counterpart. They exist so that two
  properties can be stated: "the old runner is cancelled before the new
  one is stored", and "at most one runner per key is live, and it is the
  stored one".

Foreign code is passed in as parameters (`Provider.Collaborators`):

- `collector.ParseHPAMetrics` is the function `parse`.
- `CollectorFactory.NewCollector` is the function `newCollector`.
- `collectorInterval` is the default interval.

The collector objects are the type parameter `C`. The Kubernetes listing
is a `Result<seq<Hpa>>` argument of `UpdateHpas`.

What happens to a resource whose set-up fails depends on its history. The
comment at pkg/provider/hpa.go:127-128 says such an HPA is not cached and is
tried again later. Lines 100-143 give that retry these consequences:

- **A new HPA with a partial failure** (never cached) is left out of the
  new cache. The collectors built for it stay scheduled, and the next pass
  sees it as new and sets it up again
  (`ProviderProperties.NewHpaKeepsBuiltCollectors`).
- **A cached HPA that changed and then fails** is also left out of the new
  cache. But the removal loop (lines 137-144) walks the old cache, so it
  calls `Remove` on the HPA in the same pass. That cancels every runner
  for it, including the ones the pass had just added
  (`ProviderProperties.ChangedHpaSetupFailureCancelsAll`).
- **A cached HPA that changed and whose set-up succeeds** has each declared
  metric type's old runner cancelled by `Add`. The new runner is the only
  live one for that key (`ProviderProperties.ChangedHpaReplacesRunners`).
- **A cached HPA that changed and no longer declares a metric type** stays
  cached when every build succeeds, so `Remove` is never called for it.
  The runner for the dropped type stays stored and live
  (`ProviderProperties.ChangedHpaDroppedKindKeepsRunner`).
- **A new HPA with a partial failure that then disappears from the
  listing** was never cached. The removal loop never visits it, so the
  runners built for it stay stored and live
  (`ProviderProperties.AbandonedNewHpaRunnerLeaks`).

## Model

| member | source | states |
|---|---|---|
| Autoscaler.RefOf | pkg/provider/hpa.go:95-98 | an HPA's reference carries its name and namespace |
| Autoscaler.RefOfIdentifies | pkg/provider/hpa.go:255-258 | two HPAs have the same reference exactly when their names and namespaces agree |
| Autoscaler.EqualHpa | pkg/provider/hpa.go:152-159 | two HPAs compare equal exactly when name, namespace, labels, annotations and spec agree; resource version and status play no part |
| Autoscaler.EqualHpaIgnoresVersionAndStatus | pkg/provider/hpa.go:151-158 | an HPA that differs only in resource version and status compares equal |
| Autoscaler.EqualHpaDetectsSpecChange | pkg/provider/hpa.go:158 | HPAs with different specs never compare equal |
| Autoscaler.EqualHpaIsEquivalence | pkg/provider/hpa.go:152-159 | the comparison is reflexive, symmetric and transitive |
| Scheduling.New | pkg/provider/hpa.go:271-277 | a new scheduler has an empty table, no live runner for any key, and satisfies the invariant |
| Scheduling.Add | pkg/provider/hpa.go:281-301 | after Add the key holds a fresh, live handle running the given collector; the handle previously stored there, if any, is cancelled and nothing else is; every other key's entry is unchanged; the invariant is kept |
| Scheduling.Remove | pkg/provider/hpa.go:325-335 | after Remove the reference is gone from the table; exactly the handles stored under it are added to the cancelled set; other references keep their sub-tables; removing an absent reference changes nothing; no live runner is left for the reference |
| Scheduling.RemoveRefs | pkg/provider/hpa.go:137-144 | removing a set of references drops exactly those references, cancels exactly their handles, and keeps the invariant |
| Scheduling.LiveIsStored | pkg/provider/hpa.go:285-297 | in any valid state, the live runners for a key are exactly the handle stored in the table for it, or none |
| Scheduling.AtMostOneLive | pkg/provider/hpa.go:291-297 | in any valid state, at most one runner per (reference, metric type) is live |
| Scheduling.ReplacedIsCancelled | pkg/provider/hpa.go:291-297 | when a key's stored handle was replaced by a runner the earlier state never started, the earlier handle is cancelled |
| Provider.Apply | pkg/provider/hpa.go:281-335 | any sequence of Add and Remove calls keeps the invariant; it never un-cancels a runner and never forgets a started one |
| Provider.EffectiveInterval | pkg/provider/hpa.go:109-112 | a config's own interval is used when it is not 0; otherwise the collector default is used |
| Provider.BuildCollectors | pkg/provider/hpa.go:107-124 | every config is tried, with its own interval or the default when that is 0; the set-up is complete iff every build succeeded; every built config yields an Add for the HPA's reference and its metric type, and every Add comes from a built config |
| Provider.BuildCollectorsAddsOnePerBuilt | pkg/provider/hpa.go:108-124 | exactly one Add is made per successfully built config; a failure does not stop later configs |
| Provider.BuildCollectorsAddAt | pkg/provider/hpa.go:108-124 | the Add of one built config sits at the position given by the number of configs built before it |
| Provider.BuildCollectorsInConfigOrder | pkg/provider/hpa.go:108-124 | the Adds come in config order: the Add of each built config sits at the position given by the number of configs built before it |
| Provider.Unchanged | pkg/provider/hpa.go:100 | an HPA counts as unchanged only when its reference is cached, and then its spec equals the cached one; an HPA identical to its cached copy always counts as unchanged |
| Provider.SetupHpa | pkg/provider/hpa.go:100-131 | an HPA equal to its cached copy is kept with no parse outcome used and no Add; a new or changed HPA is kept iff it parses and every collector builds; a parse failure makes no Add; every Add is for the HPA's own reference |
| Provider.PlanPass | pkg/provider/hpa.go:90-135 | the new cache holds only listed HPAs under their own references, each one whose set-up said "cache"; every such HPA is cached; every Add of a listed HPA's set-up is made, and every Add made comes from one |
| Provider.PlanPassAddsInListingOrder | pkg/provider/hpa.go:94-123 | the pass's Adds are each listed HPA's Adds concatenated in listing order, once each |
| Provider.Reconcile | pkg/provider/hpa.go:90-147 | the new cache's keys are listed references; every stale reference (cached before, not after) is absent from the table, and every runner ever started for it is cancelled; the invariant is kept |
| Provider.RemoveOneMore | pkg/provider/hpa.go:137-144 | one more Remove after removing a set equals removing the enlarged set, so the removal order does not matter |
| Provider.RemoveStaleStep | pkg/provider/hpa.go:137-144 | one step of the removal loop keeps the removed and pending sets a partition of the stale set, keeps one logged Remove per removed reference, and keeps the state equal to removing the removed set at once |
| Provider.RemoveStale | pkg/provider/hpa.go:137-144 | removing the stale references one at a time, in any order, makes exactly one Remove call per stale reference and ends in the same state as removing them all at once |
| Provider.UpdateHpas | pkg/provider/hpa.go:82-149 | on a listing error the error is returned and the cache, the scheduler and the call log stay as they were; otherwise the new state is the pass's result, and the calls are the pass's Adds (in listing order, by `Provider.PlanPassAddsInListingOrder`) followed by exactly one Remove per stale reference |
| ProviderProperties.RunAdds | pkg/provider/hpa.go:108-124 | applying Adds leaves references no call names untouched, never drops an entry, and leaves a stored runner for every added key |
| ProviderProperties.ApplyAddsKeys | pkg/provider/hpa.go:281-301 | applying Adds leaves every key no call names as it was, and every added key holds a runner that did not exist before |
| ProviderProperties.UnchangedHpaUntouched | pkg/provider/hpa.go:100-134 | a listed HPA equal to its cached copy is cached as listed, gets no Add, and its scheduler sub-table is unchanged |
| ProviderProperties.CachedIffSetupSucceeded | pkg/provider/hpa.go:100-134 | a listed HPA is in the new cache iff it was unchanged, or it parsed and every one of its collectors was built |
| ProviderProperties.ChangedHpaSetupFailureCancelsAll | pkg/provider/hpa.go:100-143 | a cached HPA whose re-set-up fails is dropped from the cache and from the table; every runner ever started for it, including those started this pass, is cancelled |
| ProviderProperties.NewHpaKeepsBuiltCollectors | pkg/provider/hpa.go:107-143 | for a new HPA, each metric type whose collector was built holds a runner started by this pass, and it is the only live one for that key, even when other builds failed |
| ProviderProperties.UnchangedListingAddsNothing | pkg/provider/hpa.go:100-134 | a listing of unchanged HPAs makes no Add call |
| ProviderProperties.UnchangedListingKeepsCache | pkg/provider/hpa.go:100-134 | a listing that matches the cache exactly rebuilds the same cache |
| ProviderProperties.SecondPassIsNoOp | pkg/provider/hpa.go:90-147 | once every listed HPA is cached, a pass over the same listing makes no Add and no Remove and leaves cache and scheduler as they were |
| ProviderProperties.ReconcileKeepsKey | pkg/provider/hpa.go:90-147 | over a pass, a key no Add names under a reference that is not stale keeps its table entry |
| ProviderProperties.ReconcileKeepsRef | pkg/provider/hpa.go:90-147 | over a pass, a reference no Add names and that is not stale keeps its whole sub-table |
| ProviderProperties.PlanAddsStoredFresh | pkg/provider/hpa.go:107-124 | after the Adds of a pass, every added key holds a runner started by that pass |
| ProviderProperties.ReconcileStoresAdded | pkg/provider/hpa.go:90-147 | at the end of a pass, every added key under a reference that is not stale holds a runner started by that pass |
| ProviderProperties.ChangedHpaReplacesRunners | pkg/provider/hpa.go:100-143 | for a changed cached HPA whose set-up succeeds, each declared metric type's previous runner is cancelled, and a runner started by the pass is stored and is the only live one |
| ProviderProperties.ChangedHpaDroppedKindKeepsRunner | pkg/provider/hpa.go:100-144 | a changed cached HPA whose builds all succeed stays cached; the runner stored for a metric type it no longer declares stays stored and is the only live one |
| ProviderProperties.AbandonedNewHpaRunnerLeaks | pkg/provider/hpa.go:127-144 | a new HPA with one built and one failed collector is not cached; if the next listing omits it, it is still not cached, and the runner pass one started for the built collector is still the stored one after pass two and the only live one |
| ProviderProperties.UnlistedUncachedRefUntouched | pkg/provider/hpa.go:94-144 | a reference that is neither cached nor listed stays out of the cache and keeps its sub-table |

## Left out

- Goroutines, channels and timers are left out: `Run`, `collectMetrics`, `collectorRunner`, `time.After` and `ctx.Done()`. A runner is only a task id that is live until it is cancelled. Global shutdown through the root context is not modelled.
- The `sync.RWMutex` of the scheduler is left out. `Add` and `Remove` are atomic steps.
- The metric store is left out, and so are the query wrappers over it (`GetRootScopedMetricByName`, `GetNamespacedMetricBySelector`, `GetExternalMetric`, `ListAll*`, pkg/provider/hpa.go:211-253). They only delegate to a store whose code is not part of this model.
- The `glog` logging is left out, and so is the `newHPAs` counter, which is only logged.
- The Kubernetes client, `collector.ParseHPAMetrics` and `CollectorFactory.NewCollector` are foreign code and become parameters. `reflect.DeepEqual` over the real Kubernetes types becomes structural equality on an abstract HPA record. In that record, labels and annotations stand for the other metadata fields, and the spec and status keep only a few fields.
- Metric type names are plain strings compared for equality. Intervals are unbounded integers, so `time.Duration` overflow is not modelled.
- Provider.BuildCollectors: the contract does not say which collector ends up live when two configs share a metric type. The Adds are in config order (`Provider.BuildCollectorsInConfigOrder`), so the last config of that type whose collector was built wins.
- Provider.PlanPass: when a listing holds two HPAs with the same reference, the contract does not say which one is cached. The body keeps the last one whose set-up succeeded. The scenario lemmas assume distinct references, as the API server guarantees.
- ProviderProperties.RunAdds: the lemma does not say which collector the stored runner holds when one key is added several times.
- Range-variable aliasing is not modelled. `ParseHPAMetrics(&hpa)` and `NewCollector(&hpa, …)` (pkg/provider/hpa.go:101, 114) take the address of the loop variable of line 94. Before Go 1.22 that variable is reused for every item, so a collector that keeps that address would see later HPAs. The model passes each HPA by value, which matches Go 1.22 and later, or collectors that copy what they need.
