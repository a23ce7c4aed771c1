/**
 Which shard a key goes to and how much a shard may hold (pkg/l0/l0_cache.go:190-240, 391-401), in terms of
 the hash and the cache's memory.
 */
module L0Sharding {
  import opened Bytes
  import opened ClockRing
  import opened L0Spec
  import opened L0Clock
  import opened L0CacheSpec
  import L0Runs

  /** A key is held by the shard that its hash picks, and by no other. */
  lemma KeyIsInItsShard(h: Hash, cs: seq<Shard>, k: string)
    requires CacheValid(h, cs) && k in Contents(cs)
    ensures forall i :: 0 <= i < |cs| ==> (k in cs[i].entries <==> i == h(k) % |cs|)
    ensures cs[h(k) % |cs|].entries[k] == Contents(cs)[k]
  {
    ContentsAt(h, cs, k);
  }

  /** What Set rejects changes nothing. */
  lemma RejectedSet(h: Hash, c: Config, cs: seq<Shard>, key: string, value: seq<Byte>, ttl: int)
    requires CacheValid(h, cs)
    ensures SetError(c, key, value).Some? <==> key == "" || value == [] || |value| > c.maxPayload
    ensures SetError(c, key, value).Some? ==> CacheSet(h, c, cs, key, value, ttl) == cs
  {
  }

  /** A Set leaves every shard but its key's alone, and so every entry whose key hashes elsewhere. */
  lemma SetLeavesOtherShards(h: Hash, c: Config, cs: seq<Shard>, key: string, value: seq<Byte>, ttl: int)
    requires CacheValid(h, cs)
    ensures var cs' := CacheSet(h, c, cs, key, value, ttl);
            && |cs'| == |cs| && (forall i :: 0 <= i < |cs| && i != h(key) % |cs| ==> cs'[i] == cs[i])
            && forall k :: k in Contents(cs) && h(k) % |cs| != h(key) % |cs| ==>
                 k in Contents(cs') && Contents(cs')[k] == Contents(cs)[k]
  {
    var cs' := CacheSet(h, c, cs, key, value, ttl);
    CacheSetKeepsValid(h, c, cs, key, value, ttl);
    forall k | k in Contents(cs) && h(k) % |cs| != h(key) % |cs|
      ensures k in Contents(cs') && Contents(cs')[k] == Contents(cs)[k]
    {
      ContentsAt(h, cs, k);
      ContentsAt(h, cs', k);
    }
  }

  lemma {:induction false} MakeRoomEvicts(s: Shard, weight: nat, limit: nat)
    requires Valid(s)
    ensures MakeRoom(s, weight, limit).0.evicts >= s.evicts
    decreases |s.entries|
  {
    EvictOneKeepsRing(s);
    EvictOneKeepsValid(s);
    if s.used + weight > limit && |s.entries| > 0 && EvictOne(s).1 {
      MakeRoomEvicts(EvictOne(s).0, weight, limit);
    }
  }

  /** Making room evicts something exactly when there is too little and the first pass finds a victim. */
  lemma MakeRoomEvictsIff(s: Shard, weight: nat, limit: nat)
    requires Valid(s)
    ensures MakeRoom(s, weight, limit).0.evicts > s.evicts <==>
            s.used + weight > limit && exists j :: 0 <= j < s.freqSize && Clear(s, j)
  {
    EvictOneEvictsIff(s);
    EvictOneKeepsRing(s);
    EvictOneKeepsValid(s);
    assert forall j :: 0 <= j < |s.slots| ==> (Clear(s, j) <==> Evictable(s.slots, s.entries.Keys, j));
    if s.used + weight > limit && |s.entries| > 0 && EvictOne(s).1 {
      var j := EvictionFreesFirstClear(s);
      MakeRoomEvicts(EvictOne(s).0, weight, limit);
    } else if j :| 0 <= j < s.freqSize && Clear(s, j) {
      assert s.slots[j].key in s.entries;
    }
  }

  lemma SetEvictsToMakeRoom(s: Shard, key: string, value: seq<Byte>, ttl: int, limit: nat)
    requires RingOk(s)
    ensures Set(s, key, value, ttl, limit).evicts == MakeRoom(s, (|value| + 4095) / 4096, limit).0.evicts
  {
  }

  lemma ShardSetEvictsIff(s: Shard, key: string, value: seq<Byte>, ttl: int, limit: nat)
    requires Valid(s)
    ensures Set(s, key, value, ttl, limit).evicts > s.evicts <==>
            s.used + (|value| + 4095) / 4096 > limit && exists j :: 0 <= j < s.freqSize && Clear(s, j)
  {
    SetEvictsToMakeRoom(s, key, value, ttl, limit);
    MakeRoomEvictsIff(s, (|value| + 4095) / 4096, limit);
  }

  /**
   A Set evicts exactly when the bytes of its key's shard and the new value's units of 4 KB are more than the
   shard's share of the memory, and the part of the ring in use names a stored key with a clear bit.
   */
  lemma SetEvictsIff(h: Hash, c: Config, cs: seq<Shard>, key: string, value: seq<Byte>, ttl: int)
    requires CacheValid(h, cs) && key != "" && value != [] && |value| <= c.maxPayload
    ensures var s, s' := cs[h(key) % |cs|], CacheSet(h, c, cs, key, value, ttl)[h(key) % |cs|];
            s'.evicts > s.evicts <==>
            s.used + (|value| + 4095) / 4096 > c.maxMemory / |cs| && exists j :: 0 <= j < s.freqSize && Clear(s, j)
  {
    ShardSetEvictsIff(cs[h(key) % |cs|], key, value, ttl, c.maxMemory / |cs|);
  }

  /** Within its share nothing is evicted: the whole map changes at the key, and nowhere else. */
  lemma SetWithinShare(h: Hash, c: Config, cs: seq<Shard>, key: string, value: seq<Byte>, ttl: int)
    requires CacheValid(h, cs) && key != "" && value != [] && |value| <= c.maxPayload
    requires cs[h(key) % |cs|].used + (|value| + 4095) / 4096 <= c.maxMemory / |cs|
    ensures Contents(CacheSet(h, c, cs, key, value, ttl)) == Contents(cs)[key := NewEntry(value, ttl)]
    ensures forall i :: 0 <= i < |cs| ==> CacheSet(h, c, cs, key, value, ttl)[i].evicts == cs[i].evicts
  {
    SetWithRoom(h, c, cs, key, value, ttl);
  }

  // ---------------------------------------------------------------- evictions are counted

  lemma {:induction false} SumsUpdate(cs: seq<Shard>, i: nat, s: Shard)
    requires i < |cs|
    ensures SumEvicts(cs[i := s]) + cs[i].evicts == SumEvicts(cs) + s.evicts
    ensures SumEntries(cs[i := s]) + |cs[i].entries| == SumEntries(cs) + |s.entries|
  {
    var n := |cs| - 1;
    if i == n {
      assert cs[i := s][..n] == cs[..n];
    } else {
      assert cs[i := s][..n] == cs[..n][i := s];
      SumsUpdate(cs[..n], i, s);
    }
  }

  lemma SetCounts(s: Shard, key: string, value: seq<Byte>, ttl: int, limit: nat)
    requires Valid(s) && key != "" && value != []
    ensures var r, left := Set(s, key, value, ttl, limit), MakeRoom(s, NewEntry(value, ttl).weight, limit).0;
            && |r.entries| + r.evicts == |s.entries| + s.evicts + (if key in left.entries then 0 else 1)
            && (key in left.entries ==> key in s.entries)
  {
    var e := NewEntry(value, ttl);
    var left := MakeRoom(s, e.weight, limit).0;
    MakeRoomKeepsValid(s, e.weight, limit);
    L0Runs.MakeRoomHistory(s, e.weight, limit);
    L0Runs.InsertSize(left, key, e);
  }

  /** The evictions that Stats reports account for every entry that a Set cost the cache. */
  lemma EvictionsAreCounted(h: Hash, c: Config, cs: seq<Shard>, key: string, value: seq<Byte>, ttl: int)
    requires CacheValid(h, cs) && key != "" && value != [] && |value| <= c.maxPayload
    ensures var cs' := CacheSet(h, c, cs, key, value, ttl);
            var kept := |Contents(cs')| + SumEvicts(cs') - SumEvicts(cs);
            && (key !in Contents(cs) ==> kept == |Contents(cs)| + 1)
            && (key in Contents(cs) ==> kept == |Contents(cs)| || kept == |Contents(cs)| + 1)
  {
    var i, cs' := h(key) % |cs|, CacheSet(h, c, cs, key, value, ttl);
    SetCounts(cs[i], key, value, ttl, c.maxMemory / |cs|);
    SumsUpdate(cs, i, cs'[i]);
    CacheSetKeepsValid(h, c, cs, key, value, ttl);
    StatsDescribeTheMap(h, cs);
    StatsDescribeTheMap(h, cs');
    ContentsAt(h, cs, key);
  }
}
