/**
 The sharded L0 cache as a value (pkg/l0/l0_cache.go): every key lives in the shard its hash picks,
 so sums over shards describe the whole map.  All results hold for any hash function.
 */
module L0CacheSpec {
  import opened Bytes
  import opened Payloads
  import opened Totals
  import ClockRing
  import opened L0Spec
  import L0Runs

  type Hash = string -> nat

  datatype Config = Config(maxMemory: nat, maxPayload: nat)

  function IndexOf(h: Hash, n: nat, key: string): (r: nat)
    requires n > 0
    ensures r < n
  {
    h(key) % n
  }

  function ShardLimit(c: Config, n: nat): nat
    requires n > 0
  {
    c.maxMemory / n
  }

  ghost predicate KeysAtHome(h: Hash, cs: seq<Shard>) {
    |cs| > 0 && forall i, k :: 0 <= i < |cs| && k in cs[i].entries ==> IndexOf(h, |cs|, k) == i
  }

  ghost predicate CacheValid(h: Hash, cs: seq<Shard>) {
    KeysAtHome(h, cs) && forall i :: 0 <= i < |cs| ==> Valid(cs[i])
  }

  datatype Error = Closed | Invalid | NotFound

  datatype Result<+T> = Ok(value: T) | Err(error: Error)

  function SetError(c: Config, key: string, value: seq<Byte>): Option<Error> {
    if Storable(c.maxPayload, key, value) then None else Some(Invalid)
  }

  ghost function CacheSet(h: Hash, c: Config, cs: seq<Shard>, key: string, value: seq<Byte>, ttl: int): seq<Shard>
    requires CacheValid(h, cs)
  {
    if SetError(c, key, value).Some? then cs
    else
      var i := IndexOf(h, |cs|, key);
      cs[i := Set(cs[i], key, value, ttl, ShardLimit(c, |cs|))]
  }

  lemma CacheSetKeepsValid(h: Hash, c: Config, cs: seq<Shard>, key: string, value: seq<Byte>, ttl: int)
    requires CacheValid(h, cs)
    ensures CacheValid(h, CacheSet(h, c, cs, key, value, ttl))
  {
    if SetError(c, key, value).None? {
      var i := IndexOf(h, |cs|, key);
      var e := NewEntry(value, ttl);
      SetKeepsValid(cs[i], key, value, ttl, ShardLimit(c, |cs|));
      MakeRoomKeepsValid(cs[i], e.weight, ShardLimit(c, |cs|));
      assert forall k :: k in Set(cs[i], key, value, ttl, ShardLimit(c, |cs|)).entries ==> k == key || k in cs[i].entries;
    }
  }

  // ---------------------------------------------------------------- the whole map

  function Contents(cs: seq<Shard>): map<string, Entry> {
    if cs == [] then map[] else Contents(cs[..|cs| - 1]) + cs[|cs| - 1].entries
  }

  function SumUsed(cs: seq<Shard>): nat {
    if cs == [] then 0 else SumUsed(cs[..|cs| - 1]) + cs[|cs| - 1].used
  }

  function SumWeight(cs: seq<Shard>): nat {
    if cs == [] then 0 else SumWeight(cs[..|cs| - 1]) + cs[|cs| - 1].weight
  }

  function SumEntries(cs: seq<Shard>): nat {
    if cs == [] then 0 else SumEntries(cs[..|cs| - 1]) + |cs[|cs| - 1].entries|
  }

  function SumEvicts(cs: seq<Shard>): nat {
    if cs == [] then 0 else SumEvicts(cs[..|cs| - 1]) + cs[|cs| - 1].evicts
  }

  /** Shards with pairwise disjoint keys. */
  ghost predicate Disjoint(cs: seq<Shard>) {
    forall i, j, k :: 0 <= i < j < |cs| && k in cs[i].entries ==> k !in cs[j].entries
  }

  lemma DisjointFront(cs: seq<Shard>)
    requires Disjoint(cs) && cs != []
    ensures Disjoint(cs[..|cs| - 1])
  {
    assert forall i :: 0 <= i < |cs| - 1 ==> cs[..|cs| - 1][i] == cs[i];
  }

  lemma {:induction false} ContentsOf(cs: seq<Shard>, i: nat, k: string)
    requires Disjoint(cs) && i < |cs| && k in cs[i].entries
    ensures k in Contents(cs) && Contents(cs)[k] == cs[i].entries[k]
  {
    DisjointFront(cs);
    if i < |cs| - 1 {
      ContentsOf(cs[..|cs| - 1], i, k);
      assert k !in cs[|cs| - 1].entries;
    }
  }

  lemma {:induction false} ContentsFrom(cs: seq<Shard>, k: string) returns (i: nat)
    requires k in Contents(cs)
    ensures i < |cs| && k in cs[i].entries
  {
    if k in cs[|cs| - 1].entries {
      i := |cs| - 1;
    } else {
      i := ContentsFrom(cs[..|cs| - 1], k);
    }
  }

  lemma FrontApart(cs: seq<Shard>)
    requires Disjoint(cs) && cs != []
    ensures Contents(cs[..|cs| - 1]).Keys !! cs[|cs| - 1].entries.Keys
  {
    var front, last := Contents(cs[..|cs| - 1]), cs[|cs| - 1].entries;
    forall k | k in front ensures k !in last {
      var i := ContentsFrom(cs[..|cs| - 1], k);
      assert k in cs[i].entries;
    }
  }

  lemma {:induction false} SumsDescribe(cs: seq<Shard>)
    requires Disjoint(cs) && forall i :: 0 <= i < |cs| ==> CountersOk(cs[i])
    ensures SumUsed(cs) == Total(Contents(cs), SizeOf)
    ensures SumWeight(cs) == Total(Contents(cs), WeightOf)
    ensures SumEntries(cs) == |Contents(cs)|
  {
    if cs != [] {
      var front, last := cs[..|cs| - 1], cs[|cs| - 1];
      DisjointFront(cs);
      SumsDescribe(front);
      FrontApart(cs);
      TotalOfUnion(Contents(front), last.entries, SizeOf);
      TotalOfUnion(Contents(front), last.entries, WeightOf);
      UnionSize(Contents(front), last.entries);
    }
  }

  lemma HomeIsDisjoint(h: Hash, cs: seq<Shard>)
    requires KeysAtHome(h, cs)
    ensures Disjoint(cs)
  {
    forall i, j, k | 0 <= i < j < |cs| && k in cs[i].entries ensures k !in cs[j].entries {
      assert IndexOf(h, |cs|, k) == i;
    }
  }

  lemma ContentsAt(h: Hash, cs: seq<Shard>, k: string)
    requires KeysAtHome(h, cs)
    ensures var i := IndexOf(h, |cs|, k);
            && (k in Contents(cs) <==> k in cs[i].entries)
            && (k in Contents(cs) ==> Contents(cs)[k] == cs[i].entries[k])
  {
    HomeIsDisjoint(h, cs);
    if k in Contents(cs) {
      var i := ContentsFrom(cs, k);
      ContentsOf(cs, i, k);
    }
    if k in cs[IndexOf(h, |cs|, k)].entries {
      ContentsOf(cs, IndexOf(h, |cs|, k), k);
    }
  }

  /** The totals Stats adds up are the size, weight and memory of the one map the cache represents. */
  lemma StatsDescribeTheMap(h: Hash, cs: seq<Shard>)
    requires CacheValid(h, cs)
    ensures SumEntries(cs) == |Contents(cs)|
    ensures SumUsed(cs) == Total(Contents(cs), SizeOf)
    ensures SumWeight(cs) == Total(Contents(cs), WeightOf)
    ensures forall k :: k in Contents(cs) <==> k in cs[IndexOf(h, |cs|, k)].entries
  {
    HomeIsDisjoint(h, cs);
    SumsDescribe(cs);
    forall k ensures k in Contents(cs) <==> k in cs[IndexOf(h, |cs|, k)].entries {
      ContentsAt(h, cs, k);
    }
  }

  /** Replacing the map of one home shard replaces that key, and no other, in the whole map. */
  lemma ContentsAfter(h: Hash, cs: seq<Shard>, s: Shard, key: string)
    requires KeysAtHome(h, cs)
    requires var i := IndexOf(h, |cs|, key);
             forall k :: k != key ==> (k in s.entries <==> k in cs[i].entries) && (k in s.entries ==> s.entries[k] == cs[i].entries[k])
    ensures var cs', m := cs[IndexOf(h, |cs|, key) := s], Contents(cs);
            && KeysAtHome(h, cs')
            && Contents(cs') == if key in s.entries then m[key := s.entries[key]] else m - {key}
  {
    var i := IndexOf(h, |cs|, key);
    var cs', m := cs[i := s], Contents(cs);
    assert KeysAtHome(h, cs');
    var want := if key in s.entries then m[key := s.entries[key]] else m - {key};
    forall k ensures (k in Contents(cs') <==> k in want) && (k in want ==> Contents(cs')[k] == want[k]) {
      ContentsAt(h, cs, k);
      ContentsAt(h, cs', k);
    }
  }

  /** A Set that evicts nothing adds or replaces exactly its own key. */
  lemma SetWithRoom(h: Hash, c: Config, cs: seq<Shard>, key: string, value: seq<Byte>, ttl: int)
    requires CacheValid(h, cs) && SetError(c, key, value).None?
    requires cs[IndexOf(h, |cs|, key)].used + NewEntry(value, ttl).weight <= ShardLimit(c, |cs|)
    ensures CacheValid(h, CacheSet(h, c, cs, key, value, ttl))
    ensures Contents(CacheSet(h, c, cs, key, value, ttl)) == Contents(cs)[key := NewEntry(value, ttl)]
  {
    CacheSetKeepsValid(h, c, cs, key, value, ttl);
    var i := IndexOf(h, |cs|, key);
    var s := Set(cs[i], key, value, ttl, ShardLimit(c, |cs|));
    assert s.entries == cs[i].entries[key := NewEntry(value, ttl)] by {
      InsertEntries(cs[i], key, NewEntry(value, ttl));
    }
    ContentsAfter(h, cs, s, key);
  }

  lemma InsertEntries(s: Shard, key: string, e: Entry)
    ensures Insert(s, key, e).entries == s.entries[key := e]
  {
  }

  /**
   Any Set, evicting or not: its own key holds the new entry, every other key still there holds what it
   held, and keys of other shards are all still there.
   */
  lemma SetKeepsOthers(h: Hash, c: Config, cs: seq<Shard>, key: string, value: seq<Byte>, ttl: int)
    requires CacheValid(h, cs) && SetError(c, key, value).None?
    ensures var m, m' := Contents(cs), Contents(CacheSet(h, c, cs, key, value, ttl));
            && key in m' && m'[key] == NewEntry(value, ttl)
            && (forall k :: k in m' && k != key ==> k in m && m'[k] == m[k])
            && (forall k :: k in m && IndexOf(h, |cs|, k) != IndexOf(h, |cs|, key) ==> k in m')
  {
    var i := IndexOf(h, |cs|, key);
    var s := Set(cs[i], key, value, ttl, ShardLimit(c, |cs|));
    CacheSetKeepsValid(h, c, cs, key, value, ttl);
    SetEntries(cs[i], key, value, ttl, ShardLimit(c, |cs|));
    var m, m' := Contents(cs), Contents(CacheSet(h, c, cs, key, value, ttl));
    ContentsWith(h, cs, i, s, key);
    forall k | k != key ensures k in m' ==> k in m && m'[k] == m[k] {
      ContentsWith(h, cs, i, s, k);
    }
    forall k | k in m && IndexOf(h, |cs|, k) != i ensures k in m' {
      ContentsWith(h, cs, i, s, k);
    }
  }

  /** Where to look for a key once one shard has been replaced. */
  lemma ContentsWith(h: Hash, cs: seq<Shard>, i: nat, s: Shard, k: string)
    requires i < |cs| && KeysAtHome(h, cs) && KeysAtHome(h, cs[i := s])
    ensures var m, m', home := Contents(cs), Contents(cs[i := s]), cs[IndexOf(h, |cs|, k)].entries;
            && (k in m <==> k in home) && (k in m ==> m[k] == home[k])
            && var home' := if IndexOf(h, |cs|, k) == i then s.entries else home;
               (k in m' <==> k in home') && (k in m' ==> m'[k] == home'[k])
  {
    ContentsAt(h, cs, k);
    ContentsAt(h, cs[i := s], k);
  }

  // ---------------------------------------------------------------- a new cache

  lemma NewCacheValid(h: Hash, cs: seq<Shard>, capacity: nat)
    requires |cs| > 0 && capacity > 0 && forall i :: 0 <= i < |cs| ==> cs[i] == EmptyShard(capacity)
    ensures CacheValid(h, cs)
  {
    ClockRing.OccupiedNone(EmptyShard(capacity).slots);
  }

  lemma {:induction false} NoContents(cs: seq<Shard>)
    requires forall i :: 0 <= i < |cs| ==> cs[i].entries == map[]
    ensures Contents(cs) == map[]
  {
    if cs != [] {
      NoContents(cs[..|cs| - 1]);
    }
  }

  // ---------------------------------------------------------------- removal

  function CacheDelete(h: Hash, cs: seq<Shard>, key: string): seq<Shard>
    requires |cs| > 0
  {
    if key == "" then cs
    else
      var i := IndexOf(h, |cs|, key);
      cs[i := Delete(cs[i], key)]
  }

  function CacheDemote(h: Hash, cs: seq<Shard>, key: string): seq<Shard>
    requires |cs| > 0
  {
    var i := IndexOf(h, |cs|, key);
    cs[i := Demote(cs[i], key)]
  }

  /** Delete takes exactly its key out of the whole map. */
  lemma DeleteRemovesKey(h: Hash, cs: seq<Shard>, key: string)
    requires CacheValid(h, cs)
    ensures CacheValid(h, CacheDelete(h, cs, key))
    ensures Contents(CacheDelete(h, cs, key)) == Contents(cs) - {key}
  {
    var i := IndexOf(h, |cs|, key);
    if key == "" {
      ContentsAt(h, cs, key);
      assert Contents(cs) - {key} == Contents(cs);
    } else {
      DeleteKeepsValid(cs[i], key);
      ContentsAfter(h, cs, Delete(cs[i], key), key);
    }
  }

  /** So does Demote. */
  lemma DemoteRemovesKey(h: Hash, cs: seq<Shard>, key: string)
    requires CacheValid(h, cs)
    ensures CacheValid(h, CacheDemote(h, cs, key))
    ensures Contents(CacheDemote(h, cs, key)) == Contents(cs) - {key}
  {
    var i := IndexOf(h, |cs|, key);
    DemoteKeepsValid(cs[i], key);
    ContentsAfter(h, cs, Demote(cs[i], key), key);
  }

  /** The map from keys to values that the contents stand for. */
  function Values(m: map<string, Entry>): map<string, seq<Byte>> {
    map k | k in m :: m[k].value
  }

  lemma ValuesChange(m: map<string, Entry>, k: string, e: Entry)
    ensures Values(m[k := e]) == Values(m)[k := e.value]
    ensures Values(m - {k}) == Values(m) - {k}
  {
  }

  // ---------------------------------------------------------------- reads

  /** What a read of a valid key answers, from the whole map. */
  function Answer(m: map<string, Entry>, key: string, expired: bool): Result<seq<Byte>> {
    match Find(m, key, expired)
    case None => Err(NotFound)
    case Some(v) => Ok(v)
  }

  lemma FoundAtHome(h: Hash, cs: seq<Shard>, key: string, expired: bool)
    requires KeysAtHome(h, cs)
    ensures Find(Contents(cs), key, expired) == Find(cs[IndexOf(h, |cs|, key)].entries, key, expired)
  {
    ContentsAt(h, cs, key);
  }

  /** A Set is read back; another key reads as before unless it was evicted from the same shard. */
  lemma ReadAfterSet(h: Hash, c: Config, cs: seq<Shard>, key: string, value: seq<Byte>, ttl: int, k: string, expired: bool)
    requires CacheValid(h, cs) && SetError(c, key, value).None?
    ensures var m, m' := Contents(cs), Contents(CacheSet(h, c, cs, key, value, ttl));
            && (k == key ==> Answer(m', k, expired) == if ttl > 0 && expired then Err(NotFound) else Ok(value))
            && (k != key ==> Answer(m', k, expired) == Answer(m, k, expired) ||
                             (Answer(m', k, expired) == Err(NotFound) && IndexOf(h, |cs|, k) == IndexOf(h, |cs|, key)))
  {
    SetKeepsOthers(h, c, cs, key, value, ttl);
  }

  /** A deleted or demoted key is not found; every other key reads as before. */
  lemma ReadAfterRemoval(h: Hash, cs: seq<Shard>, key: string, k: string, expired: bool)
    requires CacheValid(h, cs)
    ensures Answer(Contents(CacheDelete(h, cs, key)), k, expired) ==
            if k == key then Err(NotFound) else Answer(Contents(cs), k, expired)
    ensures Answer(Contents(CacheDemote(h, cs, key)), k, expired) ==
            if k == key then Err(NotFound) else Answer(Contents(cs), k, expired)
  {
    DeleteRemovesKey(h, cs, key);
    DemoteRemovesKey(h, cs, key);
  }

  // ---------------------------------------------------------------- memory of the whole cache

  function States(ts: seq<L0Runs.Track>): (r: seq<Shard>)
    ensures |r| == |ts|
  {
    seq(|ts|, i requires 0 <= i < |ts| => ts[i].s)
  }

  function SumGaveUps(ts: seq<L0Runs.Track>): nat {
    if ts == [] then 0 else SumGaveUps(ts[..|ts| - 1]) + ts[|ts| - 1].gaveUps
  }

  lemma {:induction false} SumOfBounds(c: L0Runs.Limits, ts: seq<L0Runs.Track>)
    requires forall i :: 0 <= i < |ts| ==> L0Runs.Bounded(c, ts[i])
    ensures SumUsed(States(ts)) <= |ts| * L0Runs.CleanBound(c) + SumGaveUps(ts) * c.maxPayload
  {
    if ts != [] {
      var front, last := ts[..|ts| - 1], ts[|ts| - 1];
      SumOfBounds(c, front);
      assert States(ts)[..|ts| - 1] == States(front);
      AddOne(|front|, L0Runs.CleanBound(c), SumGaveUps(front), last.gaveUps, c.maxPayload);
    }
  }

  lemma AddOne(n: nat, bound: nat, p: nat, q: nat, m: nat)
    ensures n * bound + p * m + (bound + q * m) == (n + 1) * bound + (p + q) * m
  {
  }

  lemma SumsSnoc(cs: seq<Shard>, i: nat)
    requires i < |cs|
    ensures SumUsed(cs[..i + 1]) == SumUsed(cs[..i]) + cs[i].used
    ensures SumWeight(cs[..i + 1]) == SumWeight(cs[..i]) + cs[i].weight
    ensures SumEntries(cs[..i + 1]) == SumEntries(cs[..i]) + |cs[i].entries|
  {
    assert cs[..i + 1][..i] == cs[..i];
  }

  lemma SumEvictsSnoc(cs: seq<Shard>, i: nat)
    requires i < |cs|
    ensures SumEvicts(cs[..i + 1]) == SumEvicts(cs[..i]) + cs[i].evicts
  {
    assert cs[..i + 1][..i] == cs[..i];
  }

  /** The shards' shares of the memory add up to no more than all of it. */
  lemma SharesFit(memory: nat, n: nat, limit: nat, bound: nat, slack: nat)
    requires n > 0 && limit == memory / n && bound <= limit + slack
    ensures n * bound <= memory + n * slack
  {
    assert n * limit <= memory;
    assert n * bound <= n * (limit + slack);
  }

  // ---------------------------------------------------------------- runs of the whole cache

  function ShardLimits(c: Config, n: nat): L0Runs.Limits
    requires n > 0
  {
    L0Runs.Limits(ShardLimit(c, n), c.maxPayload)
  }

  ghost predicate CacheInv(h: Hash, c: Config, ts: seq<L0Runs.Track>) {
    KeysAtHome(h, States(ts)) && forall i :: 0 <= i < |ts| ==> L0Runs.Inv(ShardLimits(c, |ts|), ts[i])
  }

  /** One operation on the cache goes to the shard that its key hashes to. */
  function CacheStep(h: Hash, c: Config, ts: seq<L0Runs.Track>, op: L0Runs.Op): (r: seq<L0Runs.Track>)
    requires |ts| > 0 && RingOk(ts[IndexOf(h, |ts|, op.key)].s)
    ensures |r| == |ts|
  {
    var i := IndexOf(h, |ts|, op.key);
    ts[i := L0Runs.Step(ShardLimits(c, |ts|), ts[i], op)]
  }

  /** What it does to the shards is what the cache's own operation does. */
  lemma CacheStepIsOperation(h: Hash, c: Config, ts: seq<L0Runs.Track>, op: L0Runs.Op)
    requires CacheInv(h, c, ts)
    ensures CacheValid(h, States(ts))
    ensures States(CacheStep(h, c, ts, op)) ==
            match op
            case DoSet(key, value, ttl) => CacheSet(h, c, States(ts), key, value, ttl)
            case DoDelete(key) => CacheDelete(h, States(ts), key)
            case DoDemote(key) => CacheDemote(h, States(ts), key)
  {
    var i := IndexOf(h, |ts|, op.key);
    assert States(ts)[i] == ts[i].s;
    assert States(CacheStep(h, c, ts, op)) == States(ts)[i := CacheStep(h, c, ts, op)[i].s];
    assert States(ts) == States(ts)[i := States(ts)[i]];
  }

  lemma CacheStepKeepsInv(h: Hash, c: Config, ts: seq<L0Runs.Track>, op: L0Runs.Op)
    requires CacheInv(h, c, ts) && L0Runs.Sane(ShardLimits(c, |ts|))
    ensures CacheInv(h, c, CacheStep(h, c, ts, op))
  {
    var i := IndexOf(h, |ts|, op.key);
    CacheStepIsOperation(h, c, ts, op);
    L0Runs.StepKeepsInv(ShardLimits(c, |ts|), ts[i], op);
    match op
    case DoSet(key, value, ttl) => CacheSetKeepsValid(h, c, States(ts), key, value, ttl);
    case DoDelete(key) => DeleteRemovesKey(h, States(ts), key);
    case DoDemote(key) => DemoteRemovesKey(h, States(ts), key);
  }

  ghost function CacheExec(h: Hash, c: Config, ts: seq<L0Runs.Track>, ops: seq<L0Runs.Op>): (r: seq<L0Runs.Track>)
    requires CacheInv(h, c, ts) && L0Runs.Sane(ShardLimits(c, |ts|))
    ensures |r| == |ts| && CacheInv(h, c, r)
    decreases ops
  {
    if ops == [] then ts
    else
      CacheStepKeepsInv(h, c, ts, ops[0]);
      CacheExec(h, c, CacheStep(h, c, ts, ops[0]), ops[1..])
  }

  function NewShards(n: nat, capacity: nat): (r: seq<L0Runs.Track>)
    ensures |r| == n
  {
    seq(n, _ => L0Runs.Start(capacity))
  }

  lemma NewShardsInv(h: Hash, c: Config, n: nat, capacity: nat)
    requires n > 0 && capacity > 0 && L0Runs.Sane(ShardLimits(c, n))
    ensures CacheInv(h, c, NewShards(n, capacity))
  {
    L0Runs.StartInv(ShardLimits(c, n), capacity);
  }

  /**
   After any sequence of operations on a new cache, each routed by the hash, the cache is valid and over
   its configured memory by less than one payload a shard, and one payload more for every recent Set
   whose eviction gave up.  Validated sizes give every shard a positive share.
   */
  lemma CacheRunsWithinBound(h: Hash, c: Config, n: nat, capacity: nat, ops: seq<L0Runs.Op>)
    requires n > 0 && capacity > 0 && L0Runs.Sane(ShardLimits(c, n))
    ensures CacheInv(h, c, NewShards(n, capacity))
    ensures var ts := CacheExec(h, c, NewShards(n, capacity), ops);
            && CacheValid(h, States(ts))
            && SumUsed(States(ts)) <= n * L0Runs.CleanBound(ShardLimits(c, n)) + SumGaveUps(ts) * c.maxPayload
            && n * L0Runs.CleanBound(ShardLimits(c, n)) <= c.maxMemory + n * (c.maxPayload - 1)
  {
    NewShardsInv(h, c, n, capacity);
    var ts := CacheExec(h, c, NewShards(n, capacity), ops);
    SumOfBounds(ShardLimits(c, n), ts);
    L0Runs.UnitsGrow(c.maxPayload, c.maxPayload);
    SharesFit(c.maxMemory, n, ShardLimit(c, n), L0Runs.CleanBound(ShardLimits(c, n)), c.maxPayload - 1);
  }
}
