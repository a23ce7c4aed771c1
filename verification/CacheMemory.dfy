/**
 The memory of the whole L0 cache in runs that neither delete keys nor set stored ones
 (pkg/l0/l0_cache.go:391-401): the shards' bounds add up.
 */
module CacheMemory {
  import opened ClockRing
  import opened L0Spec
  import opened L0Runs
  import opened L0Memory
  import opened L0Fresh
  import opened L0CacheSpec

  /** Every operation of the run is permitted in the shard that its key hashes to. */
  ghost predicate CachePermitted(r: Repertoire, h: Hash, c: Config, ts: seq<Track>, ops: seq<Op>)
    requires CacheInv(h, c, ts) && Sane(ShardLimits(c, |ts|))
    decreases ops
  {
    ops == [] ||
    (Permits(r, ts[IndexOf(h, |ts|, ops[0].key)].s, ops[0]) &&
     (CacheStepKeepsInv(h, c, ts, ops[0]); CachePermitted(r, h, c, CacheStep(h, c, ts, ops[0]), ops[1..])))
  }

  ghost predicate AllFresh(c: Config, capacity: nat, ts: seq<Track>)
    requires |ts| > 0
  {
    forall i :: 0 <= i < |ts| ==> FreshInv(ShardLimits(c, |ts|), ts[i]) && |ts[i].s.slots| == capacity
  }

  lemma CacheStepKeepsFresh(h: Hash, c: Config, capacity: nat, ts: seq<Track>, op: Op)
    requires CacheInv(h, c, ts) && Sane(ShardLimits(c, |ts|)) && AllFresh(c, capacity, ts)
    requires Permits(FRESH, ts[IndexOf(h, |ts|, op.key)].s, op)
    ensures AllFresh(c, capacity, CacheStep(h, c, ts, op))
  {
    var i, limits := IndexOf(h, |ts|, op.key), ShardLimits(c, |ts|);
    StepKeepsFresh(limits, ts[i], op);
    StepKeepsCapacity(limits, ts[i], op);
  }

  lemma {:induction false} CacheRunKeepsFresh(h: Hash, c: Config, capacity: nat, ts: seq<Track>, ops: seq<Op>)
    requires CacheInv(h, c, ts) && Sane(ShardLimits(c, |ts|)) && AllFresh(c, capacity, ts)
    requires CachePermitted(FRESH, h, c, ts, ops)
    ensures AllFresh(c, capacity, CacheExec(h, c, ts, ops))
    decreases ops
  {
    if ops != [] {
      CacheStepKeepsFresh(h, c, capacity, ts, ops[0]);
      CacheStepKeepsInv(h, c, ts, ops[0]);
      CacheRunKeepsFresh(h, c, capacity, CacheStep(h, c, ts, ops[0]), ops[1..]);
    }
  }

  lemma {:induction false} SumAtMost(ts: seq<Track>, bound: nat)
    requires forall i :: 0 <= i < |ts| ==> ts[i].s.used <= bound
    ensures SumUsed(States(ts)) <= |ts| * bound
  {
    if ts != [] {
      var front := ts[..|ts| - 1];
      SumAtMost(front, bound);
      assert States(ts)[..|ts| - 1] == States(front);
      OneMore(|ts|, bound);
    }
  }

  /** Any routed run of Sets of keys not stored and of Demotes keeps the whole cache within the shards' bounds. */
  lemma CacheFreshRunsAreBounded(h: Hash, c: Config, n: nat, capacity: nat, ops: seq<Op>)
    requires n > 0 && capacity >= 3 && Sane(ShardLimits(c, n))
    requires CacheInv(h, c, NewShards(n, capacity)) && CachePermitted(FRESH, h, c, NewShards(n, capacity), ops)
    ensures SumUsed(States(CacheExec(h, c, NewShards(n, capacity), ops))) <= n * FreshBound(ShardLimits(c, n), capacity)
  {
    StartFresh(ShardLimits(c, n), capacity);
    CacheRunKeepsFresh(h, c, capacity, NewShards(n, capacity), ops);
    var ts := CacheExec(h, c, NewShards(n, capacity), ops);
    forall i | 0 <= i < |ts| ensures ts[i].s.used <= FreshBound(ShardLimits(c, n), capacity) {
      FreshUsed(ShardLimits(c, n), ts[i]);
    }
    SumAtMost(ts, FreshBound(ShardLimits(c, n), capacity));
  }
}
