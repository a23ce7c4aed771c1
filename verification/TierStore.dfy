/**
 The tiered cache over the sharded L0 cache itself (pkg/tieredcache/tieredcache.go over pkg/l0/l0_cache.go):
 the same tasks, but L0 is its shards, and what is evicted is what their clocks pick.  Every run of it is a
 run of the protocol in which some keys were evicted, so whatever holds of all those holds of it.

 Entries do not expire.
 */
module TierStore {
  import opened Bytes
  import opened Payloads
  import opened Sequences
  import L0Spec
  import opened L0CacheSpec
  import opened TierProtocol
  import TierSafety
  import TierFreshness

  datatype System = System(l0: seq<L0Spec.Shard>, l1: map<Key, Value>, tasks: map<nat, Task>, history: seq<Event>)

  /** The protocol's view of it: L0 is the map that its shards hold. */
  function View(x: System): State {
    State(Values(Contents(x.l0)), x.l1, x.tasks, x.history)
  }

  /** The cache operation that a task's call is. */
  ghost function CallL0(h: Hash, c: Config, cs: seq<L0Spec.Shard>, k: Key, op: Op): seq<L0Spec.Shard>
    requires CacheValid(h, cs)
  {
    match op
    case SetL0(v) => CacheSet(h, c, cs, k, v, 0)
    case Promote(v) => CacheSet(h, c, cs, k, v, 0)
    case DelL0 => CacheDelete(h, cs, k)
    case TierDemote => CacheDemote(h, cs, k)
    case _ => cs
  }

  function NewL0(n: nat, capacity: nat): seq<L0Spec.Shard> {
    seq(n, _ => L0Spec.EmptyShard(capacity))
  }

  ghost function NextL0(h: Hash, c: Config, capacity: nat, x: System, a: Action): seq<L0Spec.Shard>
    requires CacheValid(h, x.l0)
  {
    if a.Advance? && a.id in x.tasks then CallL0(h, c, x.l0, x.tasks[a.id].key, x.tasks[a.id].op)
    else if a.Crash? then NewL0(|x.l0|, capacity)
    else x.l0
  }

  ghost function Next(h: Hash, c: Config, capacity: nat, x: System, a: Action): System
    requires CacheValid(h, x.l0)
  {
    var t := Step(c.maxPayload, View(x), a);
    System(NextL0(h, c, capacity, x, a), t.l1, t.tasks, t.history)
  }

  /** L0's shards are in order, and a Set under way was accepted. */
  ghost predicate SystemOk(h: Hash, c: Config, x: System) {
    && CacheValid(h, x.l0)
    && forall id :: id in x.tasks && x.tasks[id].op.SetL0? ==> Storable(c.maxPayload, x.tasks[id].key, x.tasks[id].op.v)
  }

  ghost function NewSystem(h: Hash, c: Config, n: nat, capacity: nat): (x: System)
    requires n > 0 && capacity > 0
    ensures SystemOk(h, c, x) && View(x) == INITIAL
  {
    NewCacheValid(h, NewL0(n, capacity), capacity);
    NoContents(NewL0(n, capacity));
    System(NewL0(n, capacity), map[], map[], [])
  }

  lemma CallKeepsValid(h: Hash, c: Config, cs: seq<L0Spec.Shard>, k: Key, op: Op)
    requires CacheValid(h, cs)
    ensures CacheValid(h, CallL0(h, c, cs, k, op))
  {
    match op
    case SetL0(v) => CacheSetKeepsValid(h, c, cs, k, v, 0);
    case Promote(v) => CacheSetKeepsValid(h, c, cs, k, v, 0);
    case DelL0 => DeleteRemovesKey(h, cs, k);
    case TierDemote => DemoteRemovesKey(h, cs, k);
    case _ =>
  }

  lemma TasksStayStorable(maxPayload: nat, s: State, a: Action)
    requires forall id :: id in s.tasks && s.tasks[id].op.SetL0? ==> Storable(maxPayload, s.tasks[id].key, s.tasks[id].op.v)
    ensures var t := Step(maxPayload, s, a);
            forall id :: id in t.tasks && t.tasks[id].op.SetL0? ==> Storable(maxPayload, t.tasks[id].key, t.tasks[id].op.v)
  {
  }

  lemma NextKeepsOk(h: Hash, c: Config, capacity: nat, x: System, a: Action)
    requires SystemOk(h, c, x) && capacity > 0
    ensures SystemOk(h, c, Next(h, c, capacity, x, a))
  {
    TasksStayStorable(c.maxPayload, View(x), a);
    if a.Advance? && a.id in x.tasks {
      CallKeepsValid(h, c, x.l0, x.tasks[a.id].key, x.tasks[a.id].op);
    } else if a.Crash? {
      NewCacheValid(h, NewL0(|x.l0|, capacity), capacity);
    }
  }

  // ---------------------------------------------------------------- evictions

  predicate Evictions(acts: seq<Action>) {
    forall i :: 0 <= i < |acts| ==> acts[i].Evict?
  }

  lemma {:induction false} EvictAll(maxPayload: nat, s: State, keys: set<Key>) returns (acts: seq<Action>)
    ensures Evictions(acts) && Exec(maxPayload, s, acts) == s.(l0 := s.l0 - keys)
    decreases keys
  {
    if keys == {} {
      acts := [];
      assert s.l0 - keys == s.l0;
    } else {
      var k :| k in keys;
      var rest := EvictAll(maxPayload, Dropped(s, k), keys - {k});
      acts := [Evict(k)] + rest;
      assert acts[1..] == rest;
      assert s.l0 - {k} - (keys - {k}) == s.l0 - keys;
    }
  }

  /** Maps that agree on what both hold, but for `k`: drop what one lacks and put `k`. */
  lemma DropThenPut(m: map<Key, L0Spec.Entry>, m': map<Key, L0Spec.Entry>, k: Key)
    requires k in m' && forall j :: j in m' && j != k ==> j in m && m'[j] == m[j]
    ensures Values(m') == (Values(m) - (m.Keys - m'.Keys))[k := m'[k].value]
  {
    var want := (Values(m) - (m.Keys - m'.Keys))[k := m'[k].value];
    forall j ensures j in want <==> j in m' {}
    forall j | j in m' ensures want[j] == m'[j].value {}
  }

  /** A Set of the cache drops some other keys of the shard and then adds its own. */
  lemma SetDropsThenAdds(h: Hash, c: Config, cs: seq<L0Spec.Shard>, k: Key, v: Value) returns (dropped: set<Key>)
    requires CacheValid(h, cs) && Storable(c.maxPayload, k, v)
    ensures Values(Contents(CacheSet(h, c, cs, k, v, 0))) == (Values(Contents(cs)) - dropped)[k := v]
    ensures k !in dropped && forall j :: j in dropped ==> j in Contents(cs) && IndexOf(h, |cs|, j) == IndexOf(h, |cs|, k)
  {
    SetKeepsOthers(h, c, cs, k, v, 0);
    var m, m' := Contents(cs), Contents(CacheSet(h, c, cs, k, v, 0));
    dropped := m.Keys - m'.Keys;
    DropThenPut(m, m', k);
  }

  // ---------------------------------------------------------------- one step

  lemma PutAfterDrop(maxPayload: nat, s: State, a: Action, k: Key, v: Value, dropped: set<Key>)
    requires a.Advance? && a.id in s.tasks && (s.tasks[a.id] == Task(k, SetL0(v)) || s.tasks[a.id] == Task(k, Promote(v)))
    requires Storable(maxPayload, k, v)
    ensures Step(maxPayload, s.(l0 := s.l0 - dropped), a) == Step(maxPayload, s, a).(l0 := (s.l0 - dropped)[k := v])
  {
  }

  lemma PutView(h: Hash, c: Config, capacity: nat, x: System, a: Action, k: Key, v: Value)
    requires CacheValid(h, x.l0) && a.Advance? && a.id in x.tasks
    requires x.tasks[a.id] == Task(k, SetL0(v)) || x.tasks[a.id] == Task(k, Promote(v))
    ensures View(Next(h, c, capacity, x, a))
            == Step(c.maxPayload, View(x), a).(l0 := Values(Contents(CacheSet(h, c, x.l0, k, v, 0))))
  {
  }

  /** What L0 evicts to make room, evicted in the protocol first. */
  lemma PutRefines(h: Hash, c: Config, capacity: nat, x: System, a: Action, k: Key, v: Value) returns (evictions: seq<Action>)
    requires SystemOk(h, c, x) && Storable(c.maxPayload, k, v)
    requires a.Advance? && a.id in x.tasks && (x.tasks[a.id] == Task(k, SetL0(v)) || x.tasks[a.id] == Task(k, Promote(v)))
    ensures Evictions(evictions)
    ensures Step(c.maxPayload, Exec(c.maxPayload, View(x), evictions), a) == View(Next(h, c, capacity, x, a))
  {
    var dropped := SetDropsThenAdds(h, c, x.l0, k, v);
    evictions := EvictAll(c.maxPayload, View(x), dropped);
    PutAfterDrop(c.maxPayload, View(x), a, k, v, dropped);
    PutView(h, c, capacity, x, a, k, v);
  }

  /** A call that puts nothing into L0. */
  predicate PutsNothing(maxPayload: nat, t: Task) {
    match t.op
    case SetL0(_) => false
    case Promote(v) => !Storable(maxPayload, t.key, v)
    case _ => true
  }

  function Removes(op: Op): bool {
    op.DelL0? || op.TierDemote?
  }

  lemma DoRemoves(maxPayload: nat, s: State, id: nat, t: Task, l1Ok: bool)
    requires PutsNothing(maxPayload, t)
    ensures Do(maxPayload, s, id, t.key, t.op, l1Ok).l0 == if Removes(t.op) then s.l0 - {t.key} else s.l0
  {
  }

  lemma CallKeeps(h: Hash, c: Config, cs: seq<L0Spec.Shard>, t: Task)
    requires CacheValid(h, cs) && PutsNothing(c.maxPayload, t) && !Removes(t.op)
    ensures CallL0(h, c, cs, t.key, t.op) == cs
  {
  }

  lemma CallRemoves(h: Hash, c: Config, cs: seq<L0Spec.Shard>, t: Task)
    requires CacheValid(h, cs) && PutsNothing(c.maxPayload, t)
    ensures Values(Contents(CallL0(h, c, cs, t.key, t.op)))
            == if Removes(t.op) then Values(Contents(cs)) - {t.key} else Values(Contents(cs))
  {
    if t.op.DelL0? || t.op.TierDemote? {
      RemovalRefines(h, c, cs, t.key);
    } else {
      CallKeeps(h, c, cs, t);
    }
  }

  /** Everything else is one step of the protocol. */
  lemma OtherRefines(h: Hash, c: Config, capacity: nat, x: System, a: Action)
    requires SystemOk(h, c, x) && !a.Evict?
    requires a.Advance? && a.id in x.tasks ==> PutsNothing(c.maxPayload, x.tasks[a.id])
    ensures Step(c.maxPayload, View(x), a) == View(Next(h, c, capacity, x, a))
  {
    if a.Advance? && a.id in x.tasks {
      DoRemoves(c.maxPayload, View(x), a.id, x.tasks[a.id], a.l1Ok);
      CallRemoves(h, c, x.l0, x.tasks[a.id]);
    } else if a.Crash? {
      NoContents(NewL0(|x.l0|, capacity));
    }
  }

  lemma RemovalRefines(h: Hash, c: Config, cs: seq<L0Spec.Shard>, k: Key)
    requires CacheValid(h, cs)
    ensures Values(Contents(CacheDelete(h, cs, k))) == Values(Contents(cs)) - {k}
    ensures Values(Contents(CacheDemote(h, cs, k))) == Values(Contents(cs)) - {k}
  {
    DeleteRemovesKey(h, cs, k);
    DemoteRemovesKey(h, cs, k);
    ValuesChange(Contents(cs), k, L0Spec.NewEntry([], 0));
  }

  /** A step of the system is a step of the protocol after some evictions; only tasks on their way make L0 evict. */
  lemma StepRefines(h: Hash, c: Config, capacity: nat, x: System, a: Action) returns (evictions: seq<Action>)
    requires SystemOk(h, c, x) && !a.Evict?
    ensures Evictions(evictions) && (!a.Advance? ==> evictions == [])
    ensures Step(c.maxPayload, Exec(c.maxPayload, View(x), evictions), a) == View(Next(h, c, capacity, x, a))
  {
    if a.Advance? && a.id in x.tasks && x.tasks[a.id].op.SetL0? {
      evictions := PutRefines(h, c, capacity, x, a, x.tasks[a.id].key, x.tasks[a.id].op.v);
    } else if a.Advance? && a.id in x.tasks && x.tasks[a.id].op.Promote? && Storable(c.maxPayload, x.tasks[a.id].key, x.tasks[a.id].op.v) {
      evictions := PutRefines(h, c, capacity, x, a, x.tasks[a.id].key, x.tasks[a.id].op.v);
    } else {
      evictions := [];
      OtherRefines(h, c, capacity, x, a);
    }
  }

  // ---------------------------------------------------------------- whole runs

  predicate NoEvictions(acts: seq<Action>) {
    forall i :: 0 <= i < |acts| ==> !acts[i].Evict?
  }

  ghost function Run(h: Hash, c: Config, capacity: nat, x: System, acts: seq<Action>): System
    requires SystemOk(h, c, x) && capacity > 0
    decreases acts
  {
    if acts == [] then x
    else
      NextKeepsOk(h, c, capacity, x, acts[0]);
      Run(h, c, capacity, Next(h, c, capacity, x, acts[0]), acts[1..])
  }

  /** Each action is one that the protocol admits when it is taken. */
  ghost predicate AdmissibleRun(h: Hash, c: Config, capacity: nat, x: System, acts: seq<Action>)
    requires SystemOk(h, c, x) && capacity > 0
    decreases acts
  {
    acts == [] ||
    (TierFreshness.Admissible(View(x), acts[0]) &&
     (NextKeepsOk(h, c, capacity, x, acts[0]);
      AdmissibleRun(h, c, capacity, Next(h, c, capacity, x, acts[0]), acts[1..])))
  }

  /** Everything but the evictions. */
  function Visible(acts: seq<Action>): seq<Action> {
    if acts == [] then [] else (if acts[0].Evict? then [] else [acts[0]]) + Visible(acts[1..])
  }

  lemma {:induction false} VisibleAfter(evictions: seq<Action>, a: Action, rest: seq<Action>)
    requires Evictions(evictions) && !a.Evict?
    ensures Visible(evictions + ([a] + rest)) == [a] + Visible(rest)
  {
    if evictions == [] {
      NothingFirst([a] + rest);
      assert ([a] + rest)[1..] == rest;
    } else {
      ConcatTail(evictions, [a] + rest);
      VisibleAfter(evictions[1..], a, rest);
      NothingFirst(Visible(evictions[1..] + ([a] + rest)));
    }
  }

  lemma {:induction false} AdmissibleAfter(maxPayload: nat, s: State, evictions: seq<Action>, rest: seq<Action>)
    requires Evictions(evictions) && TierFreshness.AdmissibleRun(maxPayload, Exec(maxPayload, s, evictions), rest)
    ensures TierFreshness.AdmissibleRun(maxPayload, s, evictions + rest)
    decreases evictions
  {
    if evictions == [] {
      NothingFirst(rest);
    } else {
      ConcatTail(evictions, rest);
      AdmissibleAfter(maxPayload, Step(maxPayload, s, evictions[0]), evictions[1..], rest);
    }
  }

  lemma ExecAfter(maxPayload: nat, s: State, evictions: seq<Action>, a: Action, rest: seq<Action>)
    ensures Exec(maxPayload, s, evictions + ([a] + rest))
            == Exec(maxPayload, Step(maxPayload, Exec(maxPayload, s, evictions), a), rest)
  {
    ExecConcat(maxPayload, s, evictions, [a] + rest);
    assert ([a] + rest)[1..] == rest;
  }

  lemma AdmissibleCons(maxPayload: nat, s: State, evictions: seq<Action>, a: Action, rest: seq<Action>)
    requires Evictions(evictions) && (!a.Advance? ==> evictions == []) && TierFreshness.Admissible(s, a)
    requires TierFreshness.AdmissibleRun(maxPayload, Step(maxPayload, Exec(maxPayload, s, evictions), a), rest)
    ensures TierFreshness.AdmissibleRun(maxPayload, s, evictions + ([a] + rest))
  {
    assert ([a] + rest)[1..] == rest;
    assert TierFreshness.Admissible(Exec(maxPayload, s, evictions), a);
    AdmissibleAfter(maxPayload, s, evictions, [a] + rest);
  }

  /** Every run of the system is a run of the protocol with evictions put in, and an admissible one if it is admissible. */
  lemma {:induction false} RunRefines(h: Hash, c: Config, capacity: nat, x: System, acts: seq<Action>) returns (more: seq<Action>)
    requires SystemOk(h, c, x) && capacity > 0 && NoEvictions(acts)
    ensures Exec(c.maxPayload, View(x), more) == View(Run(h, c, capacity, x, acts))
    ensures Visible(more) == acts
    ensures AdmissibleRun(h, c, capacity, x, acts) ==> TierFreshness.AdmissibleRun(c.maxPayload, View(x), more)
    decreases acts
  {
    if acts == [] {
      more := [];
    } else {
      var a := acts[0];
      var evictions := StepRefines(h, c, capacity, x, a);
      NextKeepsOk(h, c, capacity, x, a);
      var rest := RunRefines(h, c, capacity, Next(h, c, capacity, x, a), acts[1..]);
      more := evictions + ([a] + rest);
      ExecAfter(c.maxPayload, View(x), evictions, a, rest);
      VisibleAfter(evictions, a, rest);
      if AdmissibleRun(h, c, capacity, x, acts) {
        AdmissibleCons(c.maxPayload, View(x), evictions, a, rest);
      }
    }
  }

  /**
   The tiered cache, its L0 sharded and evicting by its clocks, refines one map: in every run whose
   operations on the same key do not overlap, whatever the hash, the memory limit and the size of the rings,
   every Get returns the last value written under its key and not since removed.
   */
  lemma StoreRefinesOneMap(h: Hash, c: Config, n: nat, capacity: nat, acts: seq<Action>, i: nat)
    requires n > 0 && capacity > 0 && NoEvictions(acts)
    requires AdmissibleRun(h, c, capacity, NewSystem(h, c, n, capacity), acts)
    requires i < |Run(h, c, capacity, NewSystem(h, c, n, capacity), acts).history|
    ensures var events := Run(h, c, capacity, NewSystem(h, c, n, capacity), acts).history;
            events[i].Got? ==> events[i].r == TierFreshness.LastWrite(events[..i], events[i].key)
  {
    var more := RunRefines(h, c, capacity, NewSystem(h, c, n, capacity), acts);
    TierFreshness.TiersRefineOneMap(c.maxPayload, more, i);
  }

  /** And in every run whatever a Get returns was given to an earlier Set of its key. */
  lemma StoreReadsWereWritten(h: Hash, c: Config, n: nat, capacity: nat, acts: seq<Action>, i: nat)
    requires n > 0 && capacity > 0 && NoEvictions(acts)
    requires i < |Run(h, c, capacity, NewSystem(h, c, n, capacity), acts).history|
    ensures var events := Run(h, c, capacity, NewSystem(h, c, n, capacity), acts).history;
            events[i].Got? && events[i].r.Some? ==> Given(events[i].key, events[i].r.value) in events[..i]
  {
    var more := RunRefines(h, c, capacity, NewSystem(h, c, n, capacity), acts);
    TierSafety.ReadsWereWritten(c.maxPayload, more, i);
  }
}
