/** Properties of whole reconciliation passes: what happens to an
    unchanged HPA, to a new one, to a changed one whose set-up fails, and
    what a second pass over the same listing does. */
module ProviderProperties {
  import opened Autoscaler
  import opened Scheduling
  import opened Provider

  /** Every HPA of the listing has its own reference, as in a listing
      from the API server, where namespace/name is unique. */
  ghost predicate DistinctRefs(hpas: seq<Hpa>)
  {
    forall i, j | 0 <= i < j < |hpas| :: RefOf(hpas[i]) != RefOf(hpas[j])
  }

  ghost function CallRefs<C>(calls: seq<Call<C>>): set<ResourceRef>
  {
    set i | 0 <= i < |calls| :: calls[i].ref
  }

  ghost function CallKeys<C>(calls: seq<Call<C>>): set<(ResourceRef, MetricTypeName)>
  {
    set i | 0 <= i < |calls| && calls[i].AddCall? :: (calls[i].ref, calls[i].kind)
  }

  lemma SameRefSameHpa(hpas: seq<Hpa>, a: Hpa, b: Hpa)
    requires DistinctRefs(hpas)
    requires a in hpas && b in hpas && RefOf(a) == RefOf(b)
    ensures a == b
  {
  }

  /** The references of a call sequence: the first call's and the rest's. */
  lemma CallRefsCons<C>(calls: seq<Call<C>>)
    requires |calls| > 0
    ensures CallRefs(calls) == {calls[0].ref} + CallRefs(calls[1..])
  {
    var rest := calls[1..];
    forall ref | ref in CallRefs(calls) ensures ref in {calls[0].ref} + CallRefs(rest) {
      var i :| 0 <= i < |calls| && calls[i].ref == ref;
      if i > 0 { assert rest[i - 1] == calls[i]; }
    }
    forall ref | ref in CallRefs(rest) ensures ref in CallRefs(calls) {
      var i :| 0 <= i < |rest| && rest[i].ref == ref;
      assert calls[i + 1] == rest[i];
    }
  }

  /** Applying Add calls only: references no call names keep their
      sub-table, entries are never dropped, and every (ref, kind) that was
      added ends up with a stored runner. */
  lemma {:induction false} RunAdds<C>(s: CollectorScheduler<C>, calls: seq<Call<C>>)
    requires Valid(s)
    requires forall i | 0 <= i < |calls| :: calls[i].AddCall?
    ensures forall ref | ref !in CallRefs(calls) :: (ref in Apply(s, calls).table <==> ref in s.table)
    ensures forall ref | ref !in CallRefs(calls) && ref in s.table :: Apply(s, calls).table[ref] == s.table[ref]
    ensures forall ref, kind | Lookup(s.table, ref, kind).Some? :: Lookup(Apply(s, calls).table, ref, kind).Some?
    ensures forall i | 0 <= i < |calls| :: Lookup(Apply(s, calls).table, calls[i].ref, calls[i].kind).Some?
    decreases |calls|
  {
    if |calls| > 0 {
      var s1 := Exec(s, calls[0]);
      var rest := calls[1..];
      RunAdds(s1, rest);
      assert Apply(s, calls) == Apply(s1, rest);
      CallRefsCons(calls);
      forall i | 0 <= i < |calls|
        ensures Lookup(Apply(s, calls).table, calls[i].ref, calls[i].kind).Some?
      {
        if i > 0 {
          assert calls[i] == rest[i - 1];
        }
      }
    }
  }

  /** Applying Add calls only: keys no call names keep their entry, and
      every added key ends up holding a runner started by these calls. */
  lemma {:induction false} ApplyAddsKeys<C>(s: CollectorScheduler<C>, calls: seq<Call<C>>)
    requires Valid(s)
    requires forall i | 0 <= i < |calls| :: calls[i].AddCall?
    ensures forall ref, kind | (ref, kind) !in CallKeys(calls) :: Lookup(Apply(s, calls).table, ref, kind) == Lookup(s.table, ref, kind)
    ensures forall i | 0 <= i < |calls| ::
      && Lookup(Apply(s, calls).table, calls[i].ref, calls[i].kind).Some?
      && Lookup(Apply(s, calls).table, calls[i].ref, calls[i].kind).value !in s.tasks
    decreases |calls|
  {
    if |calls| > 0 {
      var s1 := Exec(s, calls[0]);
      var rest := calls[1..];
      ApplyAddsKeys(s1, rest);
      assert Apply(s, calls) == Apply(s1, rest);
      forall ref, kind | (ref, kind) !in CallKeys(calls)
        ensures Lookup(Apply(s, calls).table, ref, kind) == Lookup(s.table, ref, kind)
      {
        assert (calls[0].ref, calls[0].kind) in CallKeys(calls);
      }
      forall i | 0 <= i < |calls|
        ensures Lookup(Apply(s, calls).table, calls[i].ref, calls[i].kind).Some?
        ensures Lookup(Apply(s, calls).table, calls[i].ref, calls[i].kind).value !in s.tasks
      {
        if i > 0 {
          assert calls[i] == rest[i - 1];
        } else if (calls[0].ref, calls[0].kind) in CallKeys(rest) {
          var j :| 0 <= j < |rest| && (rest[j].ref, rest[j].kind) == (calls[0].ref, calls[0].kind);
        }
      }
    }
  }

  /** An HPA that is cached and equalHPA to its cached copy is kept (as
      listed), causes no Add call, and its scheduler entries are untouched. */
  lemma UnchangedHpaUntouched<C>(env: Collaborators<C>, p: HpaProvider<C>, hpas: seq<Hpa>, h: Hpa)
    requires Valid(p.scheduler)
    requires DistinctRefs(hpas) && h in hpas
    requires Unchanged(p.cache, h)
    ensures var r := Reconcile(env, p, hpas);
      && RefOf(h) in r.cache && r.cache[RefOf(h)] == h
      && (forall c | c in PlanPass(env, p.cache, hpas).adds :: c.ref != RefOf(h))
      && (RefOf(h) in r.scheduler.table <==> RefOf(h) in p.scheduler.table)
      && (RefOf(h) in p.scheduler.table ==> r.scheduler.table[RefOf(h)] == p.scheduler.table[RefOf(h)])
  {
    var ref := RefOf(h);
    var plan := PlanPass(env, p.cache, hpas);
    SameRefSameHpa(hpas, plan.cache[ref], h);
    forall c | c in plan.adds ensures c.ref != ref {
      var h' :| h' in hpas && c in SetupHpa(env, p.cache, h').adds;
      if c.ref == ref {
        SameRefSameHpa(hpas, h', h);
      }
    }
    RunAdds(p.scheduler, plan.adds);
  }

  /** A listed HPA ends up in the new cache iff it was unchanged, or its
      metrics parsed and every one of its collectors was built. */
  lemma CachedIffSetupSucceeded<C>(env: Collaborators<C>, p: HpaProvider<C>, hpas: seq<Hpa>, h: Hpa)
    requires DistinctRefs(hpas) && h in hpas
    ensures var r := Reconcile(env, p, hpas);
      (RefOf(h) in r.cache && r.cache[RefOf(h)] == h)
      <==>
      (|| Unchanged(p.cache, h)
       || (env.parse(h).Success? && forall config | config in env.parse(h).value :: Build(env, h, config).Success?))
  {
    var plan := PlanPass(env, p.cache, hpas);
    if RefOf(h) in plan.cache {
      SameRefSameHpa(hpas, plan.cache[RefOf(h)], h);
    }
  }

  /** A cached HPA that changed and whose set-up failed is dropped from the
      cache and Removed in the same pass, so even the collectors the pass
      had just added for it are cancelled. */
  lemma ChangedHpaSetupFailureCancelsAll<C>(env: Collaborators<C>, p: HpaProvider<C>, hpas: seq<Hpa>, h: Hpa)
    requires Valid(p.scheduler)
    requires DistinctRefs(hpas) && h in hpas
    requires RefOf(h) in p.cache && !SetupHpa(env, p.cache, h).cache
    ensures var r := Reconcile(env, p, hpas);
      && RefOf(h) !in r.cache
      && RefOf(h) !in r.scheduler.table
      && forall id | id in r.scheduler.tasks && r.scheduler.tasks[id].ref == RefOf(h) :: id in r.scheduler.cancelled
  {
    CachedIffSetupSucceeded(env, p, hpas, h);
    var r := Reconcile(env, p, hpas);
    assert RefOf(h) in Stale(p.cache, r.cache);
  }

  /** A brand-new HPA keeps every collector that was built, even when
      another of its collectors failed (and it is therefore not cached). */
  lemma NewHpaKeepsBuiltCollectors<C>(env: Collaborators<C>, p: HpaProvider<C>, hpas: seq<Hpa>, h: Hpa, config: MetricConfig)
    requires Valid(p.scheduler)
    requires DistinctRefs(hpas) && h in hpas
    requires RefOf(h) !in p.cache
    requires env.parse(h).Success? && config in env.parse(h).value && Build(env, h, config).Success?
    ensures var r := Reconcile(env, p, hpas);
      && Lookup(r.scheduler.table, RefOf(h), config.kind).Some?
      && Lookup(r.scheduler.table, RefOf(h), config.kind).value !in p.scheduler.tasks
      && Live(r.scheduler, RefOf(h), config.kind) == {Lookup(r.scheduler.table, RefOf(h), config.kind).value}
  {
    var configs := env.parse(h).value;
    var i :| 0 <= i < |configs| && configs[i] == config;
    var plan := PlanPass(env, p.cache, hpas);
    var c := AddFor(env, h, config);
    assert c in SetupHpa(env, p.cache, h).adds;
    assert c in plan.adds;
    var j :| 0 <= j < |plan.adds| && plan.adds[j] == c;
    RunAdds(p.scheduler, plan.adds);
    var r := Reconcile(env, p, hpas);
    assert RefOf(h) !in Stale(p.cache, r.cache);
    ReconcileStoresAdded(env, p, hpas, c);
    LiveIsStored(r.scheduler, RefOf(h), config.kind);
  }

  /** When every listed HPA is unchanged, the listing loop makes no Add call. */
  lemma UnchangedListingAddsNothing<C>(env: Collaborators<C>, cache: map<ResourceRef, Hpa>, hpas: seq<Hpa>)
    requires forall h | h in hpas :: Unchanged(cache, h)
    ensures PlanPass(env, cache, hpas).adds == []
  {
  }

  /** When every listed HPA is the cached one, the listing loop rebuilds the old cache. */
  lemma UnchangedListingKeepsCache<C>(env: Collaborators<C>, cache: map<ResourceRef, Hpa>, hpas: seq<Hpa>)
    requires DistinctRefs(hpas)
    requires forall h | h in hpas :: RefOf(h) in cache && cache[RefOf(h)] == h
    requires cache.Keys <= Refs(hpas)
    ensures forall h | h in hpas :: Unchanged(cache, h)
    ensures PlanPass(env, cache, hpas).cache == cache
  {
    var plan := PlanPass(env, cache, hpas);
    forall h | h in hpas ensures Unchanged(cache, h) {
      EqualHpaIsEquivalence(h, h, h);
    }
    forall ref | ref in cache ensures ref in plan.cache && plan.cache[ref] == cache[ref] {
      var h :| h in hpas && RefOf(h) == ref;
      SameRefSameHpa(hpas, plan.cache[ref], h);
    }
  }

  /** Once every listed HPA is cached, a second pass over the same listing
      adds nothing, removes nothing, and leaves the provider as it was. */
  lemma SecondPassIsNoOp<C>(env: Collaborators<C>, p: HpaProvider<C>, hpas: seq<Hpa>)
    requires DistinctRefs(hpas)
    requires forall h | h in hpas :: RefOf(h) in p.cache && p.cache[RefOf(h)] == h
    requires p.cache.Keys <= Refs(hpas)
    ensures PlanPass(env, p.cache, hpas).adds == []
    ensures Stale(p.cache, Reconcile(env, p, hpas).cache) == {}
    ensures Reconcile(env, p, hpas) == p
  {
    UnchangedListingKeepsCache(env, p.cache, hpas);
    UnchangedListingAddsNothing(env, p.cache, hpas);
    var s := p.scheduler;
    assert Apply(s, []) == s;
    assert Handles(s.table, {}) == {};
    assert RemoveRefs(s, {}).table == s.table;
  }

  /** Over a whole pass: a key no Add names, under a reference that is not
      stale, keeps its entry. */
  lemma ReconcileKeepsKey<C>(env: Collaborators<C>, p: HpaProvider<C>, hpas: seq<Hpa>, ref: ResourceRef, kind: MetricTypeName)
    requires Valid(p.scheduler)
    requires (ref, kind) !in CallKeys(PlanPass(env, p.cache, hpas).adds)
    requires ref in PlanPass(env, p.cache, hpas).cache || ref !in p.cache
    ensures Lookup(Reconcile(env, p, hpas).scheduler.table, ref, kind) == Lookup(p.scheduler.table, ref, kind)
  {
    var adds := PlanPass(env, p.cache, hpas).adds;
    assert forall i | 0 <= i < |adds| :: adds[i] in adds;
    ApplyAddsKeys(p.scheduler, adds);
  }

  /** Over a whole pass: a reference no Add names and that is not stale
      keeps its whole sub-table. */
  lemma ReconcileKeepsRef<C>(env: Collaborators<C>, p: HpaProvider<C>, hpas: seq<Hpa>, ref: ResourceRef)
    requires Valid(p.scheduler)
    requires ref !in CallRefs(PlanPass(env, p.cache, hpas).adds)
    requires ref in PlanPass(env, p.cache, hpas).cache || ref !in p.cache
    ensures var t := Reconcile(env, p, hpas).scheduler.table;
      && (ref in t <==> ref in p.scheduler.table)
      && (ref in p.scheduler.table ==> t[ref] == p.scheduler.table[ref])
  {
    var adds := PlanPass(env, p.cache, hpas).adds;
    assert forall i | 0 <= i < |adds| :: adds[i] in adds;
    RunAdds(p.scheduler, adds);
  }

  /** The Add calls of a pass leave every added key holding a runner they started. */
  lemma PlanAddsStoredFresh<C>(env: Collaborators<C>, p: HpaProvider<C>, hpas: seq<Hpa>, c: Call<C>)
    requires Valid(p.scheduler)
    requires c in PlanPass(env, p.cache, hpas).adds
    ensures var stored := Lookup(Apply(p.scheduler, PlanPass(env, p.cache, hpas).adds).table, c.ref, c.kind);
      stored.Some? && stored.value !in p.scheduler.tasks
  {
    var adds := PlanPass(env, p.cache, hpas).adds;
    assert forall i | 0 <= i < |adds| :: adds[i] in adds;
    var j :| 0 <= j < |adds| && adds[j] == c;
    ApplyAddsKeys(p.scheduler, adds);
  }

  /** Over a whole pass: a key that was added, under a reference that is not
      stale, holds a runner started by this pass. */
  lemma ReconcileStoresAdded<C>(env: Collaborators<C>, p: HpaProvider<C>, hpas: seq<Hpa>, c: Call<C>)
    requires Valid(p.scheduler)
    requires c in PlanPass(env, p.cache, hpas).adds
    requires c.ref in PlanPass(env, p.cache, hpas).cache || c.ref !in p.cache
    ensures var stored := Lookup(Reconcile(env, p, hpas).scheduler.table, c.ref, c.kind);
      stored.Some? && stored.value !in p.scheduler.tasks
  {
    var plan := PlanPass(env, p.cache, hpas);
    PlanAddsStoredFresh(env, p, hpas, c);
    var added := Apply(p.scheduler, plan.adds);
    var stale := Stale(p.cache, plan.cache);
    assert c.ref !in stale;
    assert Reconcile(env, p, hpas).scheduler == RemoveRefs(added, stale);
  }

  /** A cached HPA that changed and was set up again: for every metric type
      it now declares, the runner stored before the pass (if any) is
      cancelled, and a runner started by this pass is the only live one. */
  lemma ChangedHpaReplacesRunners<C>(env: Collaborators<C>, p: HpaProvider<C>, hpas: seq<Hpa>, h: Hpa, config: MetricConfig)
    requires Valid(p.scheduler)
    requires DistinctRefs(hpas) && h in hpas
    requires RefOf(h) in p.cache && !Unchanged(p.cache, h) && SetupHpa(env, p.cache, h).cache
    requires env.parse(h).Success? && config in env.parse(h).value
    ensures var r := Reconcile(env, p, hpas);
      var stored := Lookup(r.scheduler.table, RefOf(h), config.kind);
      && stored.Some?
      && stored.value !in p.scheduler.tasks
      && Live(r.scheduler, RefOf(h), config.kind) == {stored.value}
      && (Lookup(p.scheduler.table, RefOf(h), config.kind).Some? ==>
            Lookup(p.scheduler.table, RefOf(h), config.kind).value in r.scheduler.cancelled)
  {
    var ref := RefOf(h);
    var configs := env.parse(h).value;
    var i :| 0 <= i < |configs| && configs[i] == config;
    var c := AddFor(env, h, config);
    assert c in SetupHpa(env, p.cache, h).adds;
    CachedIffSetupSucceeded(env, p, hpas, h);
    ReconcileStoresAdded(env, p, hpas, c);
    var r := Reconcile(env, p, hpas);
    LiveIsStored(r.scheduler, ref, config.kind);
    if Lookup(p.scheduler.table, ref, config.kind).Some? {
      var plan := PlanPass(env, p.cache, hpas);
      assert r.scheduler == RemoveRefs(Apply(p.scheduler, plan.adds), Stale(p.cache, plan.cache));
      ReplacedIsCancelled(p.scheduler, r.scheduler, ref, config.kind);
    }
  }

  /** A cached HPA that changed and no longer declares a metric type, while
      every one of its collectors was built: the HPA stays cached, so it is
      never Removed, and the runner stored for the dropped type before the
      pass stays stored and live. */
  lemma ChangedHpaDroppedKindKeepsRunner<C>(env: Collaborators<C>, p: HpaProvider<C>, hpas: seq<Hpa>, h: Hpa, kind: MetricTypeName)
    requires Valid(p.scheduler)
    requires DistinctRefs(hpas) && h in hpas
    requires RefOf(h) in p.cache && !Unchanged(p.cache, h)
    requires env.parse(h).Success?
    requires forall config | config in env.parse(h).value :: Build(env, h, config).Success? && config.kind != kind
    requires Lookup(p.scheduler.table, RefOf(h), kind).Some?
    ensures var r := Reconcile(env, p, hpas);
      && RefOf(h) in r.cache
      && Lookup(r.scheduler.table, RefOf(h), kind) == Lookup(p.scheduler.table, RefOf(h), kind)
      && Live(r.scheduler, RefOf(h), kind) == {Lookup(p.scheduler.table, RefOf(h), kind).value}
  {
    var ref := RefOf(h);
    var configs := env.parse(h).value;
    var plan := PlanPass(env, p.cache, hpas);
    CachedIffSetupSucceeded(env, p, hpas, h);
    forall j | 0 <= j < |plan.adds| && plan.adds[j].ref == ref ensures plan.adds[j].kind != kind {
      var c := plan.adds[j];
      var h' :| h' in hpas && c in SetupHpa(env, p.cache, h').adds;
      SameRefSameHpa(hpas, h', h);
      var i :| 0 <= i < |configs| && Build(env, h, configs[i]).Success? && c == AddFor(env, h, configs[i]);
      assert configs[i] in configs;
    }
    ReconcileKeepsKey(env, p, hpas, ref, kind);
    LiveIsStored(Reconcile(env, p, hpas).scheduler, ref, kind);
  }

  /** A new HPA whose set-up partly failed is not cached; when it is gone
      from the next listing, nothing Removes it (the removal loop walks only
      the cache), so the runner built for it keeps running. */
  lemma AbandonedNewHpaRunnerLeaks<C>(env: Collaborators<C>, env2: Collaborators<C>, p: HpaProvider<C>,
                                      hpas: seq<Hpa>, hpas2: seq<Hpa>, h: Hpa, built: MetricConfig, failed: MetricConfig)
    requires Valid(p.scheduler)
    requires DistinctRefs(hpas) && h in hpas
    requires RefOf(h) !in p.cache
    requires env.parse(h).Success?
    requires built in env.parse(h).value && Build(env, h, built).Success?
    requires failed in env.parse(h).value && Build(env, h, failed).Failure?
    requires RefOf(h) !in Refs(hpas2)
    ensures var p1 := Reconcile(env, p, hpas);
      var p2 := Reconcile(env2, p1, hpas2);
      && RefOf(h) !in p1.cache
      && RefOf(h) !in p2.cache
      && Lookup(p1.scheduler.table, RefOf(h), built.kind).Some?
      && Lookup(p1.scheduler.table, RefOf(h), built.kind).value !in p.scheduler.tasks
      && Lookup(p2.scheduler.table, RefOf(h), built.kind) == Lookup(p1.scheduler.table, RefOf(h), built.kind)
      && Live(p2.scheduler, RefOf(h), built.kind) == {Lookup(p2.scheduler.table, RefOf(h), built.kind).value}
  {
    var ref := RefOf(h);
    NewHpaKeepsBuiltCollectors(env, p, hpas, h, built);
    CachedIffSetupSucceeded(env, p, hpas, h);
    var p1 := Reconcile(env, p, hpas);
    UnlistedUncachedRefUntouched(env2, p1, hpas2, ref);
    LiveIsStored(Reconcile(env2, p1, hpas2).scheduler, ref, built.kind);
  }

  /** A reference that is neither cached nor listed is not touched by a pass. */
  lemma UnlistedUncachedRefUntouched<C>(env: Collaborators<C>, p: HpaProvider<C>, hpas: seq<Hpa>, ref: ResourceRef)
    requires Valid(p.scheduler)
    requires ref !in p.cache && ref !in Refs(hpas)
    ensures var r := Reconcile(env, p, hpas);
      && ref !in r.cache
      && (ref in r.scheduler.table <==> ref in p.scheduler.table)
      && (ref in p.scheduler.table ==> r.scheduler.table[ref] == p.scheduler.table[ref])
  {
    var plan := PlanPass(env, p.cache, hpas);
    forall j | 0 <= j < |plan.adds| ensures plan.adds[j].ref != ref {
      var c := plan.adds[j];
      assert c in plan.adds;
      var h' :| h' in hpas && c in SetupHpa(env, p.cache, h').adds;
      assert RefOf(h') in Refs(hpas);
    }
    ReconcileKeepsRef(env, p, hpas, ref);
  }
}
