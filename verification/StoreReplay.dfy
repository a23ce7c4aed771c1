/**
 Recovery into the sharded L0 cache itself (pkg/tieredcache/tieredcache.go:183-200 over pkg/l0/l0_cache.go):
 if what each shard holds and all the Sets of the log for it fit its limit, no schedule evicts anything,
 and the cache's contents are those of the plain map that TierReplay speaks of.
 */
module StoreReplay {
  import opened WalFormat
  import opened WalManager
  import opened ReplayPool
  import opened PoolProgress
  import opened PoolSchedules
  import opened TierReplay
  import L0Spec
  import opened L0CacheSpec

  datatype Store = Store(l0: seq<L0Spec.Shard>, l1: map<string, Value>)

  /** What the two tiers hold, as maps. */
  function View(t: Store): Tiers {
    Tiers(Values(Contents(t.l0)), t.l1)
  }

  ghost function ApplyToStore(h: Hash, c: Config, t: Store, e: WalEntry): (Store, bool)
    requires CacheValid(h, t.l0)
  {
    if e.tier == 0 && e.operation == OP_SET then
      (t.(l0 := CacheSet(h, c, t.l0, e.key, e.value, 0)), SetError(c, e.key, e.value).Some?)
    else if e.tier == 0 && e.operation == OP_DELETE then
      if e.key == "" || e.key !in t.l0[IndexOf(h, |t.l0|, e.key)].entries then (t, true)
      else (t.(l0 := CacheDelete(h, t.l0, e.key)), false)
    else
      var (tiers, failed) := ApplyEntry(c.maxPayload, Tiers(map[], t.l1), e);
      (t.(l1 := tiers.l1), failed)
  }

  ghost function StoreJob(h: Hash, c: Config, es: seq<WalEntry>, start: Store): Job<Store> {
    EntryJob(es, start, (t: Store, e: WalEntry) => if CacheValid(h, t.l0) then ApplyToStore(h, c, t, e) else (t, false))
  }

  // ---------------------------------------------------------------- room

  /** The bytes that an entry adds to shard `i` at most. */
  function Load(h: Hash, c: Config, n: nat, i: nat, e: WalEntry): nat
    requires n > 0
  {
    if e.tier == 0 && e.operation == OP_SET && SetError(c, e.key, e.value).None? && IndexOf(h, n, e.key) == i then |e.value|
    else 0
  }

  function LoadOf(h: Hash, c: Config, n: nat, i: nat, es: seq<WalEntry>): nat -> nat
    requires n > 0
  {
    (k: nat) => if k < |es| then Load(h, c, n, i, es[k]) else 0
  }

  /** Each shard's bytes and all the Sets for it fit its limit. */
  ghost predicate FitsLimits(h: Hash, c: Config, es: seq<WalEntry>, start: seq<L0Spec.Shard>) {
    && CacheValid(h, start)
    && forall i :: 0 <= i < |start| ==>
         start[i].used + Sum(Range(0, |es|), LoadOf(h, c, |start|, i, es)) <= ShardLimit(c, |start|)
  }

  /** What a replay has done to the shards so far: nothing evicted, and no more bytes than the entries brought. */
  ghost predicate Within(h: Hash, c: Config, es: seq<WalEntry>, start: seq<L0Spec.Shard>, order: seq<nat>, now: seq<L0Spec.Shard>) {
    && CacheValid(h, now) && |now| == |start|
    && forall i :: 0 <= i < |start| ==>
         now[i].evicts == start[i].evicts && now[i].used <= start[i].used + Sum(order, LoadOf(h, c, |start|, i, es))
  }

  // ---------------------------------------------------------------- one entry

  /** A valid Set for tier 0 whose shard has the room. */
  ghost predicate Roomy(h: Hash, c: Config, cs: seq<L0Spec.Shard>, e: WalEntry) {
    && CacheValid(h, cs) && SetError(c, e.key, e.value).None?
    && cs[IndexOf(h, |cs|, e.key)].used + |e.value| <= ShardLimit(c, |cs|)
  }

  lemma SetValues(h: Hash, c: Config, cs: seq<L0Spec.Shard>, e: WalEntry)
    requires Roomy(h, c, cs, e)
    ensures var cs' := CacheSet(h, c, cs, e.key, e.value, 0);
            CacheValid(h, cs') && Values(Contents(cs')) == Values(Contents(cs))[e.key := e.value]
  {
    var entry := L0Spec.NewEntry(e.value, 0);
    L0Spec.EntryUnits(entry);
    SetWithRoom(h, c, cs, e.key, e.value, 0);
    ValuesChange(Contents(cs), e.key, entry);
  }

  lemma SetBytes(h: Hash, c: Config, cs: seq<L0Spec.Shard>, e: WalEntry)
    requires Roomy(h, c, cs, e)
    ensures var i, cs' := IndexOf(h, |cs|, e.key), CacheSet(h, c, cs, e.key, e.value, 0);
            && cs' == cs[i := cs'[i]] && cs'[i].evicts == cs[i].evicts && cs'[i].used <= cs[i].used + |e.value|
  {
    var i := IndexOf(h, |cs|, e.key);
    L0Spec.EntryUnits(L0Spec.NewEntry(e.value, 0));
    RoomySet(cs[i], e.key, e.value, ShardLimit(c, |cs|));
  }

  lemma RejectedIsMapped(h: Hash, c: Config, t: Store, e: WalEntry)
    requires CacheValid(h, t.l0) && e.tier == 0 && e.operation == OP_SET && SetError(c, e.key, e.value).Some?
    ensures ApplyToStore(h, c, t, e) == (t, true) && ApplyEntry(c.maxPayload, View(t), e) == (View(t), true)
  {
  }

  lemma RoomyIsMapped(h: Hash, c: Config, t: Store, e: WalEntry)
    requires Roomy(h, c, t.l0, e) && e.tier == 0 && e.operation == OP_SET
    ensures var (t', failed) := ApplyToStore(h, c, t, e);
            CacheValid(h, t'.l0) && (View(t'), failed) == ApplyEntry(c.maxPayload, View(t), e)
  {
    SetValues(h, c, t.l0, e);
  }

  lemma SetIsMapped(h: Hash, c: Config, t: Store, e: WalEntry)
    requires CacheValid(h, t.l0) && e.tier == 0 && e.operation == OP_SET
    requires t.l0[IndexOf(h, |t.l0|, e.key)].used + Load(h, c, |t.l0|, IndexOf(h, |t.l0|, e.key), e) <= ShardLimit(c, |t.l0|)
    ensures var (t', failed) := ApplyToStore(h, c, t, e);
            && CacheValid(h, t'.l0) && (View(t'), failed) == ApplyEntry(c.maxPayload, View(t), e)
            && |t'.l0| == |t.l0|
            && forall i :: 0 <= i < |t.l0| ==>
                 t'.l0[i].evicts == t.l0[i].evicts && t'.l0[i].used <= t.l0[i].used + Load(h, c, |t.l0|, i, e)
  {
    if SetError(c, e.key, e.value).None? {
      RoomyIsMapped(h, c, t, e);
      SetBytes(h, c, t.l0, e);
    } else {
      RejectedIsMapped(h, c, t, e);
    }
  }

  lemma RoomySet(s: L0Spec.Shard, key: string, value: Value, limit: nat)
    requires L0Spec.Valid(s) && s.used + L0Spec.Units(|value|) <= limit
    ensures var r := L0Spec.Set(s, key, value, 0, limit); r.evicts == s.evicts && r.used <= s.used + |value|
  {
    if key in s.entries {
      L0Spec.WithoutKeepsCounters(s, key);
    }
  }

  lemma DeleteIsMapped(h: Hash, c: Config, t: Store, e: WalEntry)
    requires CacheValid(h, t.l0) && e.tier == 0 && e.operation == OP_DELETE
    ensures var (t', failed) := ApplyToStore(h, c, t, e);
            && CacheValid(h, t'.l0) && (View(t'), failed) == ApplyEntry(c.maxPayload, View(t), e)
            && |t'.l0| == |t.l0|
            && forall i :: 0 <= i < |t.l0| ==> t'.l0[i].evicts == t.l0[i].evicts && t'.l0[i].used <= t.l0[i].used
  {
    ContentsAt(h, t.l0, e.key);
    DeleteRemovesKey(h, t.l0, e.key);
    ValuesChange(Contents(t.l0), e.key, L0Spec.NewEntry([], 0));
  }

  /** An entry does to the cache what it does to the map, if its shard has the room. */
  lemma EntryIsMapped(h: Hash, c: Config, t: Store, e: WalEntry)
    requires CacheValid(h, t.l0)
    requires t.l0[IndexOf(h, |t.l0|, e.key)].used + Load(h, c, |t.l0|, IndexOf(h, |t.l0|, e.key), e) <= ShardLimit(c, |t.l0|)
    ensures var (t', failed) := ApplyToStore(h, c, t, e);
            && CacheValid(h, t'.l0) && (View(t'), failed) == ApplyEntry(c.maxPayload, View(t), e)
            && |t'.l0| == |t.l0|
            && forall i :: 0 <= i < |t.l0| ==>
                 t'.l0[i].evicts == t.l0[i].evicts && t'.l0[i].used <= t.l0[i].used + Load(h, c, |t.l0|, i, e)
  {
    if e.tier == 0 && e.operation == OP_SET {
      SetIsMapped(h, c, t, e);
    } else if e.tier == 0 && e.operation == OP_DELETE {
      DeleteIsMapped(h, c, t, e);
    }
  }

  // ---------------------------------------------------------------- any order

  /** One more entry of some picked ones still fits. */
  lemma NextFits(h: Hash, c: Config, es: seq<WalEntry>, start: seq<L0Spec.Shard>, front: seq<nat>, k: nat, now: seq<L0Spec.Shard>, i: nat)
    requires FitsLimits(h, c, es, start) && Within(h, c, es, start, front, now)
    requires Picks(front + [k], |es|) && i < |start| && k < |es|
    ensures now[i].used + Load(h, c, |start|, i, es[k]) <= ShardLimit(c, |start|)
    ensures Sum(front + [k], LoadOf(h, c, |start|, i, es)) == Sum(front, LoadOf(h, c, |start|, i, es)) + Load(h, c, |start|, i, es[k])
  {
    var f := LoadOf(h, c, |start|, i, es);
    PicksSum(front + [k], |es|, f);
    assert (front + [k])[..|front|] == front;
  }

  /** So applying it keeps within the room. */
  lemma NextEntryFits(h: Hash, c: Config, es: seq<WalEntry>, start: Store, front: seq<nat>, k: nat, t: Store)
    requires FitsLimits(h, c, es, start.l0) && Within(h, c, es, start.l0, front, t.l0)
    requires Picks(front + [k], |es|) && k < |es|
    ensures var (t', failed) := ApplyToStore(h, c, t, es[k]);
            && Within(h, c, es, start.l0, front + [k], t'.l0)
            && (View(t'), failed) == ApplyEntry(c.maxPayload, View(t), es[k])
  {
    var n := |start.l0|;
    forall i | 0 <= i < n
      ensures t.l0[i].used + Load(h, c, n, i, es[k]) <= ShardLimit(c, n)
      ensures Sum(front + [k], LoadOf(h, c, n, i, es)) == Sum(front, LoadOf(h, c, n, i, es)) + Load(h, c, n, i, es[k])
    {
      NextFits(h, c, es, start.l0, front, k, t.l0, i);
    }
    EntryIsMapped(h, c, t, es[k]);
  }

  /** Applied in any order, the entries do to the cache what they do to the map, and evict nothing. */
  lemma {:induction false} OrderIsMapped(h: Hash, c: Config, es: seq<WalEntry>, start: Store, order: seq<nat>)
    requires FitsLimits(h, c, es, start.l0) && Picks(order, |es|)
    ensures Within(h, c, es, start.l0, order, Fold(StoreJob(h, c, es, start), order).l0)
    ensures View(Fold(StoreJob(h, c, es, start), order)) == Fold(ReplayJob(c.maxPayload, es, View(start)), order)
    ensures FailedOf(StoreJob(h, c, es, start), order) == FailedOf(ReplayJob(c.maxPayload, es, View(start)), order)
  {
    if order != [] {
      var front, k := order[..|order| - 1], order[|order| - 1];
      PicksFront(order, |es|);
      OrderIsMapped(h, c, es, start, front);
      var t, n := Fold(StoreJob(h, c, es, start), front), |start.l0|;
      NextEntryFits(h, c, es, start, front, k, t);
    }
  }

  /** Under every schedule, at every moment: nothing has been evicted and the map results hold of the contents. */
  lemma NoScheduleEvicts(h: Hash, c: Config, es: seq<WalEntry>, start: Store, workers: nat, ms: seq<Move>, q: Pool<Store>)
    requires workers > 0 && FitsLimits(h, c, es, start.l0)
    requires Runs(StoreJob(h, c, es, start), Init(StoreJob(h, c, es, start), workers), ms, q)
    ensures CacheValid(h, q.tiers.l0) && |q.tiers.l0| == |start.l0|
    ensures forall i :: 0 <= i < |start.l0| ==> q.tiers.l0[i].evicts == start.l0[i].evicts
    ensures View(q.tiers) == Fold(ReplayJob(c.maxPayload, es, View(start)), q.order)
    ensures q.failed == FailedOf(ReplayJob(c.maxPayload, es, View(start)), q.order)
  {
    var j := StoreJob(h, c, es, start);
    InitInv(j, workers);
    RunTraced(j, Init(j, workers), ms, q);
    AppliedOnce(j, q);
    OrderIsMapped(h, c, es, start, q.order);
  }

  /** So parallel replay into the real cache ends as in-order replay does wherever deciding entries agree. */
  lemma StoreParallelReplay(h: Hash, c: Config, es: seq<WalEntry>, start: Store, workers: nat, ms: seq<Move>, q: Pool<Store>)
    requires workers > 0 && FitsLimits(h, c, es, start.l0) && Agreeing(c.maxPayload, es)
    requires Runs(StoreJob(h, c, es, start), Init(StoreJob(h, c, es, start), workers), ms, q) && q.producer.Finished?
    ensures View(q.tiers) == Fold(ReplayJob(c.maxPayload, es, View(start)), Range(0, |es|))
  {
    var j := StoreJob(h, c, es, start);
    NoScheduleEvicts(h, c, es, start, workers, ms, q);
    FinishedRun(j, workers, ms, q);
    AllInOrder(q.order, |es|);
    AgreeingOrders(c.maxPayload, es, View(start), q.order);
  }

  /** And the error channel suffices for the cache exactly when it does for the maps. */
  lemma StoreOrdersFitIff(h: Hash, c: Config, es: seq<WalEntry>, start: Store, workers: nat)
    requires FitsLimits(h, c, es, start.l0)
    ensures OrdersFit(StoreJob(h, c, es, start), workers) <==> OrdersFit(ReplayJob(c.maxPayload, es, View(start)), workers)
  {
    var j, k := StoreJob(h, c, es, start), ReplayJob(c.maxPayload, es, View(start));
    forall order | Picks(order, |es|) ensures FailedOf(j, order) == FailedOf(k, order) {
      OrderIsMapped(h, c, es, start, order);
    }
  }
}
