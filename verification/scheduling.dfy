/** The collector scheduler: a table from HPA reference and metric type to
    the cancel handle of the runner polling that metric.

    A runner is represented by a task id that is live until it is
    cancelled. Besides the table, the state keeps every task ever started
    (`tasks`, with the key and collector it was started for) and the set
    of cancelled tasks; neither has a runtime counterpart in the program,
    they exist so that "cancel before replace" and "at most one live
    runner per key" can be stated. */
module Scheduling {
  import opened Wrappers
  import opened Autoscaler

  /** The collector's metric type name; only compared for equality. */
  type MetricTypeName = string

  type TaskId = nat

  /** A started runner: the key it polls for and the collector it runs. */
  datatype Task<C> = Task(ref: ResourceRef, kind: MetricTypeName, collector: C)

  datatype CollectorScheduler<C> = CollectorScheduler(
    table: map<ResourceRef, map<MetricTypeName, TaskId>>,
    tasks: map<TaskId, Task<C>>,
    cancelled: set<TaskId>,
    next: TaskId)

  /** The handle stored for `(ref, kind)`, if any. */
  function Lookup(table: map<ResourceRef, map<MetricTypeName, TaskId>>, ref: ResourceRef, kind: MetricTypeName): Option<TaskId>
  {
    if ref in table && kind in table[ref] then Some(table[ref][kind]) else None
  }

  /** The stored handle for `(ref, kind)` is a started, uncancelled runner for that key. */
  ghost predicate StoredIsLive<C>(s: CollectorScheduler<C>, ref: ResourceRef, kind: MetricTypeName)
    requires ref in s.table && kind in s.table[ref]
  {
    var id := s.table[ref][kind];
    id in s.tasks && s.tasks[id].ref == ref && s.tasks[id].kind == kind && id !in s.cancelled
  }

  /** A started runner is stored in the table under its own key. */
  ghost predicate IsStored<C>(s: CollectorScheduler<C>, id: TaskId)
    requires id in s.tasks
  {
    Lookup(s.table, s.tasks[id].ref, s.tasks[id].kind) == Some(id)
  }

  /** The scheduler invariant: ids are allocated below `next`, the table
      holds live runners only, and every live runner is the one in the table. */
  ghost predicate Valid<C>(s: CollectorScheduler<C>)
  {
    && (forall id | id in s.tasks :: id < s.next)
    && s.cancelled <= s.tasks.Keys
    && (forall ref, kind | ref in s.table && kind in s.table[ref] :: StoredIsLive(s, ref, kind))
    && (forall id | id in s.tasks && id !in s.cancelled :: IsStored(s, id))
  }

  /** The live (started and uncancelled) runners for one key. */
  ghost function Live<C>(s: CollectorScheduler<C>, ref: ResourceRef, kind: MetricTypeName): set<TaskId>
  {
    set id | id in s.tasks && id !in s.cancelled && s.tasks[id].ref == ref && s.tasks[id].kind == kind
  }

  /** The handles stored under any of `refs`. */
  function Handles(table: map<ResourceRef, map<MetricTypeName, TaskId>>, refs: set<ResourceRef>): set<TaskId>
  {
    set ref, kind | ref in refs && ref in table && kind in table[ref] :: table[ref][kind]
  }

  /** NewCollectorScheduler: an empty table and no runners. */
  function New<C>(): (s: CollectorScheduler<C>)
    ensures Valid(s)
    ensures forall ref, kind :: Lookup(s.table, ref, kind) == None
    ensures forall ref, kind :: Live(s, ref, kind) == {}
  {
    CollectorScheduler(map[], map[], {}, 0)
  }

  /** Add: cancel the runner stored for `(ref, kind)`, if any, then start a
      fresh runner for `collector` and store its handle. */
  function Add<C>(s: CollectorScheduler<C>, ref: ResourceRef, kind: MetricTypeName, collector: C): (r: CollectorScheduler<C>)
    ensures Lookup(r.table, ref, kind).Some?
    ensures var id := Lookup(r.table, ref, kind).value;
      && id in r.tasks && r.tasks[id] == Task(ref, kind, collector)
      && (Valid(s) ==> id !in s.tasks && id !in r.cancelled)
    ensures Lookup(s.table, ref, kind).Some? ==> Lookup(s.table, ref, kind).value in r.cancelled
    ensures forall id | id in r.cancelled :: id in s.cancelled || Lookup(s.table, ref, kind) == Some(id)
    ensures s.cancelled <= r.cancelled
    ensures forall ref', kind' | (ref', kind') != (ref, kind) :: Lookup(r.table, ref', kind') == Lookup(s.table, ref', kind')
    ensures forall ref' | ref' != ref :: (ref' in r.table <==> ref' in s.table)
    ensures forall ref' | ref' != ref && ref' in s.table :: r.table[ref'] == s.table[ref']
    ensures Valid(s) ==> forall id | id in s.tasks :: id in r.tasks && r.tasks[id] == s.tasks[id]
    ensures r.tasks.Keys == s.tasks.Keys + {s.next}
    ensures Valid(s) ==> Valid(r)
  {
    var collectors := if ref in s.table then s.table[ref] else map[];
    var cancelled := if kind in collectors then s.cancelled + {collectors[kind]} else s.cancelled;
    var id := s.next;
    var r := CollectorScheduler(
      s.table[ref := collectors[kind := id]],
      s.tasks[id := Task(ref, kind, collector)],
      cancelled,
      s.next + 1);
    assert Valid(s) ==> Valid(r) by {
      if Valid(s) {
        AddKeepsValid(s, r, ref, kind, collector);
      }
    }
    r
  }

  lemma AddKeepsValid<C>(s: CollectorScheduler<C>, r: CollectorScheduler<C>, ref: ResourceRef, kind: MetricTypeName, collector: C)
    requires Valid(s)
    requires var collectors := if ref in s.table then s.table[ref] else map[];
      r == CollectorScheduler(
        s.table[ref := collectors[kind := s.next]],
        s.tasks[s.next := Task(ref, kind, collector)],
        if kind in collectors then s.cancelled + {collectors[kind]} else s.cancelled,
        s.next + 1)
    ensures Valid(r)
  {
    forall ref', kind' | ref' in r.table && kind' in r.table[ref']
      ensures StoredIsLive(r, ref', kind')
    {
      if (ref', kind') != (ref, kind) {
        assert Lookup(r.table, ref', kind') == Lookup(s.table, ref', kind');
        assert StoredIsLive(s, ref', kind');
      }
    }
    forall id | id in r.tasks && id !in r.cancelled
      ensures IsStored(r, id)
    {
      if id != s.next {
        assert IsStored(s, id);
      }
    }
  }

  /** Remove: cancel every runner stored under `ref` and drop its sub-table. */
  function Remove<C>(s: CollectorScheduler<C>, ref: ResourceRef): (r: CollectorScheduler<C>)
    ensures ref !in r.table
    ensures forall kind | ref in s.table && kind in s.table[ref] :: s.table[ref][kind] in r.cancelled
    ensures r.cancelled == s.cancelled + Handles(s.table, {ref})
    ensures forall ref' | ref' != ref :: (ref' in r.table <==> ref' in s.table)
    ensures forall ref' | ref' != ref && ref' in s.table :: r.table[ref'] == s.table[ref']
    ensures r.tasks == s.tasks && r.next == s.next
    ensures ref !in s.table ==> r == s
    ensures Valid(s) ==> Valid(r)
    ensures Valid(s) ==> forall kind :: Live(r, ref, kind) == {}
  {
    if ref in s.table then
      var r := CollectorScheduler(s.table - {ref}, s.tasks, s.cancelled + s.table[ref].Values, s.next);
      assert Handles(s.table, {ref}) == s.table[ref].Values;
      assert Valid(s) ==> Valid(r) && forall kind :: Live(r, ref, kind) == {} by {
        if Valid(s) {
          RemoveRefsKeepsValid(s, r, {ref});
          forall kind ensures Live(r, ref, kind) == {} {
            LiveIsStored(r, ref, kind);
          }
        }
      }
      r
    else
      assert Handles(s.table, {ref}) == {};
      assert Valid(s) ==> forall kind :: Live(s, ref, kind) == {} by {
        if Valid(s) {
          forall kind ensures Live(s, ref, kind) == {} {
            LiveIsStored(s, ref, kind);
          }
        }
      }
      s
  }

  /** Remove for a whole set of references at once; the order in which the
      references are removed one by one does not matter (see Provider.UpdateHpas). */
  function RemoveRefs<C>(s: CollectorScheduler<C>, refs: set<ResourceRef>): (r: CollectorScheduler<C>)
    ensures forall ref | ref in refs :: ref !in r.table
    ensures forall ref | ref !in refs :: (ref in r.table <==> ref in s.table)
    ensures forall ref | ref !in refs && ref in s.table :: r.table[ref] == s.table[ref]
    ensures r.cancelled == s.cancelled + Handles(s.table, refs)
    ensures r.tasks == s.tasks && r.next == s.next
    ensures Valid(s) ==> Valid(r)
  {
    var r := CollectorScheduler(
      map ref | ref in s.table && ref !in refs :: s.table[ref],
      s.tasks,
      s.cancelled + Handles(s.table, refs),
      s.next);
    assert Valid(s) ==> Valid(r) by {
      if Valid(s) {
        RemoveRefsKeepsValid(s, r, refs);
      }
    }
    r
  }

  lemma RemoveRefsKeepsValid<C>(s: CollectorScheduler<C>, r: CollectorScheduler<C>, refs: set<ResourceRef>)
    requires Valid(s)
    requires forall ref | ref in refs :: ref !in r.table
    requires forall ref | ref !in refs :: (ref in r.table <==> ref in s.table)
    requires forall ref | ref !in refs && ref in s.table :: r.table[ref] == s.table[ref]
    requires r.cancelled == s.cancelled + Handles(s.table, refs)
    requires r.tasks == s.tasks && r.next == s.next
    ensures Valid(r)
  {
    forall id | id in Handles(s.table, refs) ensures id in s.tasks {
      var ref, kind :| ref in refs && ref in s.table && kind in s.table[ref] && s.table[ref][kind] == id;
      assert StoredIsLive(s, ref, kind);
    }
    forall ref, kind | ref in r.table && kind in r.table[ref]
      ensures StoredIsLive(r, ref, kind)
    {
      assert StoredIsLive(s, ref, kind);
    }
    forall id | id in r.tasks && id !in r.cancelled
      ensures IsStored(r, id)
    {
      assert IsStored(s, id);
    }
  }

  /** In a valid state the live runners for a key are exactly the stored one. */
  lemma LiveIsStored<C>(s: CollectorScheduler<C>, ref: ResourceRef, kind: MetricTypeName)
    requires Valid(s)
    ensures Live(s, ref, kind) == (if Lookup(s.table, ref, kind).Some? then {Lookup(s.table, ref, kind).value} else {})
  {
    if Lookup(s.table, ref, kind).Some? {
      assert StoredIsLive(s, ref, kind);
    }
    forall id | id in Live(s, ref, kind) ensures Lookup(s.table, ref, kind) == Some(id) {
      assert IsStored(s, id);
    }
  }

  /** At most one live runner per key. */
  lemma AtMostOneLive<C>(s: CollectorScheduler<C>, ref: ResourceRef, kind: MetricTypeName)
    requires Valid(s)
    ensures |Live(s, ref, kind)| <= 1
  {
    LiveIsStored(s, ref, kind);
  }
  /** Between two valid states that agree on every task of the first, a key
      whose stored handle was replaced by a runner the first state never
      started has its earlier handle cancelled. */
  lemma ReplacedIsCancelled<C>(s0: CollectorScheduler<C>, s1: CollectorScheduler<C>, ref: ResourceRef, kind: MetricTypeName)
    requires Valid(s0) && Valid(s1)
    requires forall id | id in s0.tasks :: id in s1.tasks && s1.tasks[id] == s0.tasks[id]
    requires Lookup(s0.table, ref, kind).Some?
    requires Lookup(s1.table, ref, kind).Some? && Lookup(s1.table, ref, kind).value !in s0.tasks
    ensures Lookup(s0.table, ref, kind).value in s1.cancelled
  {
    var prev := Lookup(s0.table, ref, kind).value;
    assert StoredIsLive(s0, ref, kind);
    LiveIsStored(s1, ref, kind);
    assert prev !in Live(s1, ref, kind);
  }

}
