/** The HPA provider's reconciliation pass (`updateHPAs`): diff a fresh
    listing of HPAs against the cache of the previous pass, (re)build the
    collectors of new or changed HPAs, and cancel the collectors of HPAs
    that did not make it into the new cache. */
module Provider {
  import opened Wrappers
  import opened Autoscaler
  import opened Scheduling

  /** One collector configuration parsed from an HPA: the metric type it
      polls and its own polling interval, 0 when the HPA sets none. */
  datatype MetricConfig = MetricConfig(kind: MetricTypeName, interval: int)

  /** The foreign code a pass calls: the metric-config parser, the
      collector factory, and the default collector interval. */
  datatype Collaborators<C> = Collaborators(
    parse: Hpa -> Result<seq<MetricConfig>>,
    newCollector: (Hpa, MetricConfig, int) -> Result<C>,
    collectorInterval: int)

  /** A call the pass makes on the collector scheduler. */
  datatype Call<C> =
    | AddCall(ref: ResourceRef, kind: MetricTypeName, collector: C)
    | RemoveCall(ref: ResourceRef)

  /** The provider state that survives between passes. */
  datatype HpaProvider<C> = HpaProvider(cache: map<ResourceRef, Hpa>, scheduler: CollectorScheduler<C>)

  /** The interval handed to the factory: the config's own, else the default. */
  function EffectiveInterval(config: MetricConfig, collectorInterval: int): (interval: int)
    ensures config.interval != 0 ==> interval == config.interval
    ensures config.interval == 0 ==> interval == collectorInterval
  {
    if config.interval == 0 then collectorInterval else config.interval
  }

  /** The factory's answer for one config of `hpa`. */
  function Build<C>(env: Collaborators<C>, hpa: Hpa, config: MetricConfig): Result<C>
  {
    env.newCollector(hpa, config, EffectiveInterval(config, env.collectorInterval))
  }

  /** The scheduler call made for a successfully built config. */
  function AddFor<C>(env: Collaborators<C>, hpa: Hpa, config: MetricConfig): Call<C>
    requires Build(env, hpa, config).Success?
  {
    AddCall(RefOf(hpa), config.kind, Build(env, hpa, config).value)
  }

  /** The positions of the configs whose collector could be built. */
  function Built<C>(env: Collaborators<C>, hpa: Hpa, configs: seq<MetricConfig>): set<nat>
  {
    set i: nat | i < |configs| && Build(env, hpa, configs[i]).Success?
  }

  datatype Collectors<C> = Collectors(adds: seq<Call<C>>, ok: bool)

  /** The loop over the parsed configs of one HPA: every config is tried,
      each built collector is added, and `ok` records whether all were built. */
  function BuildCollectors<C(==)>(env: Collaborators<C>, hpa: Hpa, configs: seq<MetricConfig>): (r: Collectors<C>)
    ensures r.ok <==> forall i | 0 <= i < |configs| :: Build(env, hpa, configs[i]).Success?
    ensures forall i | 0 <= i < |configs| && Build(env, hpa, configs[i]).Success? :: AddFor(env, hpa, configs[i]) in r.adds
    ensures forall c | c in r.adds :: exists i :: 0 <= i < |configs| && Build(env, hpa, configs[i]).Success? && c == AddFor(env, hpa, configs[i])
    ensures forall c | c in r.adds :: c.AddCall? && c.ref == RefOf(hpa)
    decreases |configs|
  {
    if |configs| == 0 then
      Collectors([], true)
    else
      var n := |configs| - 1;
      var b := BuildCollectors(env, hpa, configs[..n]);
      assert forall i | 0 <= i < n :: configs[..n][i] == configs[i];
      if Build(env, hpa, configs[n]).Success? then
        Collectors(b.adds + [AddFor(env, hpa, configs[n])], b.ok)
      else
        Collectors(b.adds, false)
  }

  /** Exactly one Add call per config whose collector was built. */
  lemma {:induction false} BuildCollectorsAddsOnePerBuilt<C>(env: Collaborators<C>, hpa: Hpa, configs: seq<MetricConfig>)
    ensures |BuildCollectors(env, hpa, configs).adds| == |Built(env, hpa, configs)|
    decreases |configs|
  {
    if |configs| == 0 {
      assert Built(env, hpa, configs) == {};
    } else {
      var n := |configs| - 1;
      BuildCollectorsAddsOnePerBuilt(env, hpa, configs[..n]);
      BuiltSnoc(env, hpa, configs);
    }
  }

  /** The Add of one built config sits at the position given by the number
      of built configs before it. */
  lemma {:induction false} BuildCollectorsAddAt<C>(env: Collaborators<C>, hpa: Hpa, configs: seq<MetricConfig>, i: nat)
    requires i < |configs| && Build(env, hpa, configs[i]).Success?
    ensures var adds := BuildCollectors(env, hpa, configs).adds;
      |Built(env, hpa, configs[..i])| < |adds| && adds[|Built(env, hpa, configs[..i])|] == AddFor(env, hpa, configs[i])
    decreases |configs|
  {
    var n := |configs| - 1;
    var init := configs[..n];
    var b := BuildCollectors(env, hpa, init);
    var adds := BuildCollectors(env, hpa, configs).adds;
    BuildCollectorsAddsOnePerBuilt(env, hpa, init);
    assert adds[..|b.adds|] == b.adds;
    if i < n {
      BuildCollectorsAddAt(env, hpa, init, i);
      assert configs[..i] == init[..i];
      assert configs[i] == init[i];
      var k := |Built(env, hpa, init[..i])|;
      assert adds[k] == b.adds[k];
    } else {
      assert configs[..i] == init;
      assert adds == b.adds + [AddFor(env, hpa, configs[i])];
    }
  }

  /** The Adds come in config order: the Add of a built config sits at the
      position given by the number of built configs before it. */
  lemma BuildCollectorsInConfigOrder<C>(env: Collaborators<C>, hpa: Hpa, configs: seq<MetricConfig>)
    ensures var adds := BuildCollectors(env, hpa, configs).adds;
      forall i | 0 <= i < |configs| && Build(env, hpa, configs[i]).Success? ::
        |Built(env, hpa, configs[..i])| < |adds| && adds[|Built(env, hpa, configs[..i])|] == AddFor(env, hpa, configs[i])
  {
    forall i | 0 <= i < |configs| && Build(env, hpa, configs[i]).Success?
      ensures var adds := BuildCollectors(env, hpa, configs).adds;
        |Built(env, hpa, configs[..i])| < |adds| && adds[|Built(env, hpa, configs[..i])|] == AddFor(env, hpa, configs[i])
    {
      BuildCollectorsAddAt(env, hpa, configs, i);
    }
  }

  lemma BuiltSnoc<C>(env: Collaborators<C>, hpa: Hpa, configs: seq<MetricConfig>)
    requires |configs| > 0
    ensures var n := |configs| - 1;
      && n !in Built(env, hpa, configs[..n])
      && Built(env, hpa, configs) ==
         Built(env, hpa, configs[..n]) + (if Build(env, hpa, configs[n]).Success? then {n} else {})
  {
    var n := |configs| - 1;
    assert forall i | 0 <= i < n :: configs[..n][i] == configs[i];
  }

  /** The HPA is in the old cache and equalHPA to its cached copy. */
  function Unchanged(cache: map<ResourceRef, Hpa>, hpa: Hpa): (r: bool)
    ensures RefOf(hpa) !in cache ==> !r
    ensures r ==> cache[RefOf(hpa)].spec == hpa.spec
    ensures RefOf(hpa) in cache && cache[RefOf(hpa)] == hpa ==> r
  {
    RefOf(hpa) in cache && EqualHpa(cache[RefOf(hpa)], hpa)
  }

  datatype Setup<C> = Setup(adds: seq<Call<C>>, cache: bool)

  /** The body of the listing loop for one HPA: an unchanged HPA is kept as
      it is; a new or changed one is parsed (a parse failure skips it) and
      its collectors built, and it is kept only if every build succeeded. */
  function SetupHpa<C(==)>(env: Collaborators<C>, cache: map<ResourceRef, Hpa>, hpa: Hpa): (r: Setup<C>)
    ensures Unchanged(cache, hpa) ==> r.cache && r.adds == []
    ensures !Unchanged(cache, hpa) ==>
      (r.cache <==> env.parse(hpa).Success? && forall config | config in env.parse(hpa).value :: Build(env, hpa, config).Success?)
    ensures !Unchanged(cache, hpa) && env.parse(hpa).Failure? ==> r.adds == []
    ensures !Unchanged(cache, hpa) && env.parse(hpa).Success? ==>
      r.adds == BuildCollectors(env, hpa, env.parse(hpa).value).adds
    ensures forall c | c in r.adds :: c.AddCall? && c.ref == RefOf(hpa)
  {
    if Unchanged(cache, hpa) then
      Setup([], true)
    else
      match env.parse(hpa)
      case Failure(_) => Setup([], false)
      case Success(configs) =>
        var b := BuildCollectors(env, hpa, configs);
        Setup(b.adds, b.ok)
  }

  /** The references of a listing. */
  function Refs(hpas: seq<Hpa>): set<ResourceRef>
  {
    set h | h in hpas :: RefOf(h)
  }

  datatype Plan<C> = Plan(cache: map<ResourceRef, Hpa>, adds: seq<Call<C>>)

  /** The listing loop: the new cache and the Add calls, in listing order. */
  function PlanPass<C(==)>(env: Collaborators<C>, cache: map<ResourceRef, Hpa>, hpas: seq<Hpa>): (r: Plan<C>)
    ensures r.cache.Keys <= Refs(hpas)
    ensures forall ref | ref in r.cache ::
      r.cache[ref] in hpas && RefOf(r.cache[ref]) == ref && SetupHpa(env, cache, r.cache[ref]).cache
    ensures forall h | h in hpas && SetupHpa(env, cache, h).cache :: RefOf(h) in r.cache
    ensures forall h, c | h in hpas && c in SetupHpa(env, cache, h).adds :: c in r.adds
    ensures forall c | c in r.adds :: c.AddCall? && exists h :: h in hpas && c in SetupHpa(env, cache, h).adds
    decreases |hpas|
  {
    if |hpas| == 0 then
      Plan(map[], [])
    else
      var init := hpas[..|hpas| - 1];
      var h := hpas[|hpas| - 1];
      assert forall h' | h' in init :: h' in hpas;
      assert forall h' | h' in hpas :: h' in init || h' == h;
      var p := PlanPass(env, cache, init);
      var s := SetupHpa(env, cache, h);
      Plan(if s.cache then p.cache[RefOf(h) := h] else p.cache, p.adds + s.adds)
  }

  /** The concatenation of a sequence of sequences, head first. */
  function Concat<T>(xss: seq<seq<T>>): seq<T>
    decreases |xss|
  {
    if |xss| == 0 then [] else xss[0] + Concat(xss[1..])
  }

  /** Appending one more sequence appends its elements. */
  lemma {:induction false} ConcatSnoc<T>(xss: seq<seq<T>>)
    requires |xss| > 0
    ensures Concat(xss) == Concat(xss[..|xss| - 1]) + xss[|xss| - 1]
    decreases |xss|
  {
    var n := |xss| - 1;
    if n == 0 {
      assert xss[..n] == [];
    } else {
      var tail := xss[1..];
      ConcatSnoc(tail);
      assert tail[..|tail| - 1] == xss[..n][1..];
      assert tail[|tail| - 1] == xss[n];
      assert xss[..n][0] == xss[0];
    }
  }

  /** Each listed HPA's own Add calls, in listing order. */
  function AddsByHpa<C(==)>(env: Collaborators<C>, cache: map<ResourceRef, Hpa>, hpas: seq<Hpa>): seq<seq<Call<C>>>
  {
    seq(|hpas|, i requires 0 <= i < |hpas| => SetupHpa(env, cache, hpas[i]).adds)
  }

  /** The listing loop makes each HPA's Adds exactly once, in listing order. */
  lemma {:induction false} PlanPassAddsInListingOrder<C>(env: Collaborators<C>, cache: map<ResourceRef, Hpa>, hpas: seq<Hpa>)
    ensures PlanPass(env, cache, hpas).adds == Concat(AddsByHpa(env, cache, hpas))
    decreases |hpas|
  {
    if |hpas| > 0 {
      var n := |hpas| - 1;
      var init := hpas[..n];
      var all := AddsByHpa(env, cache, hpas);
      PlanPassAddsInListingOrder(env, cache, init);
      assert all[..n] == AddsByHpa(env, cache, init);
      ConcatSnoc(all);
    }
  }

  /** Applying one scheduler call. */
  function Exec<C>(s: CollectorScheduler<C>, c: Call<C>): CollectorScheduler<C>
  {
    match c
    case AddCall(ref, kind, collector) => Add(s, ref, kind, collector)
    case RemoveCall(ref) => Remove(s, ref)
  }

  /** Applying a sequence of scheduler calls in order: any such sequence
      keeps the scheduler invariant, never revives a cancelled runner and
      never forgets a started one. */
  function Apply<C>(s: CollectorScheduler<C>, calls: seq<Call<C>>): (r: CollectorScheduler<C>)
    ensures Valid(s) ==> Valid(r)
    ensures s.cancelled <= r.cancelled
    ensures Valid(s) ==> forall id | id in s.tasks :: id in r.tasks && r.tasks[id] == s.tasks[id]
    decreases |calls|
  {
    if |calls| == 0 then s else Apply(Exec(s, calls[0]), calls[1..])
  }

  /** The references that were cached before the pass and are not after it. */
  function Stale(before: map<ResourceRef, Hpa>, after: map<ResourceRef, Hpa>): set<ResourceRef>
  {
    before.Keys - after.Keys
  }

  /** One successful pass over a listing: plan, add, then remove the stale references. */
  function Reconcile<C(==)>(env: Collaborators<C>, p: HpaProvider<C>, hpas: seq<Hpa>): (r: HpaProvider<C>)
    ensures r.cache.Keys <= Refs(hpas)
    ensures forall ref | ref in r.cache :: r.cache[ref] in hpas && RefOf(r.cache[ref]) == ref
    ensures forall ref | ref in Stale(p.cache, r.cache) :: ref !in r.scheduler.table
    ensures Valid(p.scheduler) ==> Valid(r.scheduler)
    ensures Valid(p.scheduler) ==> forall id | id in r.scheduler.tasks && r.scheduler.tasks[id].ref in Stale(p.cache, r.cache) ::
      id in r.scheduler.cancelled
  {
    var plan := PlanPass(env, p.cache, hpas);
    var added := Apply(p.scheduler, plan.adds);
    HpaProvider(plan.cache, RemoveRefs(added, Stale(p.cache, plan.cache)))
  }

  /** One step of the removal loop: moving a reference from the pending set
      to the removed set keeps the partition, the call log and the state in
      step with removing the removed set at once. */
  lemma RemoveStaleStep<C>(s0: CollectorScheduler<C>, stale: set<ResourceRef>, done: set<ResourceRef>,
                           rest: set<ResourceRef>, calls: seq<Call<C>>, ref: ResourceRef)
    requires done + rest == stale && done !! rest && ref in rest
    requires |calls| == |done|
    requires forall c | c in calls :: c.RemoveCall? && c.ref in done
    requires forall r | r in done :: RemoveCall(r) in calls
    ensures (done + {ref}) + (rest - {ref}) == stale && (done + {ref}) !! (rest - {ref})
    ensures Remove(RemoveRefs(s0, done), ref) == RemoveRefs(s0, done + {ref})
    ensures |calls + [RemoveCall(ref)]| == |done + {ref}|
    ensures forall c | c in calls + [RemoveCall(ref)] :: c.RemoveCall? && c.ref in done + {ref}
    ensures forall r | r in done + {ref} :: RemoveCall(r) in calls + [RemoveCall(ref)]
  {
    assert |done + {ref}| == |done| + 1;
    RemoveOneMore(s0, done, ref);
  }

  /** Removing one more reference after a batch is the same as removing the larger batch. */
  lemma RemoveOneMore<C>(s: CollectorScheduler<C>, done: set<ResourceRef>, ref: ResourceRef)
    requires ref !in done
    ensures Remove(RemoveRefs(s, done), ref) == RemoveRefs(s, done + {ref})
  {
    var a := Remove(RemoveRefs(s, done), ref);
    var b := RemoveRefs(s, done + {ref});
    assert a.table == b.table;
    assert Handles(s.table, done + {ref}) == Handles(s.table, done) + Handles(s.table, {ref});
    assert Handles(RemoveRefs(s, done).table, {ref}) == Handles(s.table, {ref});
  }

  /** The loop over the old cache: Remove every stale reference, one at a
      time, in whatever order the map iteration yields them. */
  method RemoveStale<C(==)>(s0: CollectorScheduler<C>, stale: set<ResourceRef>)
    returns (s: CollectorScheduler<C>, calls: seq<Call<C>>)
    ensures s == RemoveRefs(s0, stale)
    ensures |calls| == |stale|
    ensures forall c | c in calls :: c.RemoveCall? && c.ref in stale
    ensures forall ref | ref in stale :: RemoveCall(ref) in calls
  {
    s := s0;
    calls := [];
    var rest := stale;
    ghost var done: set<ResourceRef> := {};
    while rest != {}
      invariant done + rest == stale && done !! rest
      invariant s == RemoveRefs(s0, done)
      invariant |calls| == |done|
      invariant forall c | c in calls :: c.RemoveCall? && c.ref in done
      invariant forall ref | ref in done :: RemoveCall(ref) in calls
      decreases rest
    {
      var ref :| ref in rest;
      RemoveStaleStep(s0, stale, done, rest, calls, ref);
      s := Remove(s, ref);
      calls := calls + [RemoveCall(ref)];
      rest := rest - {ref};
      done := done + {ref};
    }
  }

  /** updateHPAs: list the HPAs; on a listing error return it and change
      nothing; otherwise plan the pass, make its Add calls, then Remove the
      stale references. */
  method UpdateHpas<C(==)>(env: Collaborators<C>, p: HpaProvider<C>, listing: Result<seq<Hpa>>)
    returns (r: HpaProvider<C>, calls: seq<Call<C>>, err: Option<Error>)
    ensures listing.Failure? ==> r == p && calls == [] && err == Some(listing.error)
    ensures listing.Success? ==> err == None && r == Reconcile(env, p, listing.value)
    ensures listing.Success? ==>
      var adds := PlanPass(env, p.cache, listing.value).adds;
      && |calls| == |adds| + |Stale(p.cache, r.cache)|
      && calls[..|adds|] == adds
      && (forall c | c in calls[|adds|..] :: c.RemoveCall? && c.ref in Stale(p.cache, r.cache))
      && (forall ref | ref in Stale(p.cache, r.cache) :: RemoveCall(ref) in calls[|adds|..])
  {
    if listing.Failure? {
      return p, [], Some(listing.error);
    }
    var plan := PlanPass(env, p.cache, listing.value);
    var added := Apply(p.scheduler, plan.adds);
    var s, removes := RemoveStale(added, Stale(p.cache, plan.cache));
    calls := plan.adds + removes;
    assert calls[..|plan.adds|] == plan.adds;
    assert calls[|plan.adds|..] == removes;
    r := HpaProvider(plan.cache, s);
    err := None;
  }
}
