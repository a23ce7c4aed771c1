/** The L0 cache object (pkg/l0/l0_cache.go:16-396): validation, sharding and statistics over shard objects. */
module L0Cache {
  import opened Bytes
  import Spec = L0Spec
  import opened L0CacheSpec
  import Objects = L0Shard

  datatype StatsRecord = StatsRecord(hits: nat, misses: nat, sets: nat, deletes: nat, evictions: nat,
                         entries: nat, totalWeight: nat, memoryUsed: nat, memoryLimit: nat)

  class Cache {
    const hash: Hash
    const config: Config
    const shards: seq<Objects.Shard>
    var closed: bool
    var hits: nat
    var misses: nat
    var sets: nat
    var deletes: nat

    ghost function Arrays(): set<object>
      reads shards
    {
      set i | 0 <= i < |shards| :: shards[i].frequency
    }

    ghost predicate Separate()
      reads shards
    {
      forall i, j :: 0 <= i < j < |shards| ==> shards[i] != shards[j] && shards[i].frequency != shards[j].frequency
    }

    function Shards(): (r: seq<Spec.Shard>)
      reads shards, set i | 0 <= i < |shards| :: shards[i].frequency
      ensures |r| == |shards| && forall i :: 0 <= i < |r| ==> r[i] == shards[i].State()
    {
      seq(|shards|, i requires 0 <= i < |shards| reads shards, set j | 0 <= j < |shards| :: shards[j].frequency => shards[i].State())
    }

    ghost predicate Valid()
      reads shards, Arrays()
    {
      Separate() && CacheValid(hash, Shards())
    }

    function Home(key: string): (i: nat)
      requires |shards| > 0
      ensures i < |shards|
    {
      IndexOf(hash, |shards|, key)
    }

    /** If only shard `i` changed, only its value did. */
    twostate lemma OnlyShard(i: nat)
      requires i < |shards| && old(Separate())
      requires forall j :: 0 <= j < |shards| && j != i ==> unchanged(shards[j]) && unchanged(old(shards[j].frequency))
      requires shards[i].frequency == old(shards[i].frequency)
      ensures Separate() && Shards() == old(Shards())[i := shards[i].State()]
    {
      forall j | 0 <= j < |shards| && j != i ensures shards[j].State() == old(shards[j].State()) {
      }
    }

    constructor (hash: Hash, config: Config, count: nat, capacity: nat)
      requires count > 0 && capacity > 0
      ensures Valid() && !closed && this.hash == hash && this.config == config && |shards| == count
      ensures Contents(Shards()) == map[]
      ensures forall i :: 0 <= i < count ==> Shards()[i] == Spec.EmptyShard(capacity)
    {
      var made: seq<Objects.Shard> := [];
      for k := 0 to count
        invariant |made| == k
        invariant forall i :: 0 <= i < k ==> fresh(made[i]) && fresh(made[i].frequency)
        invariant forall i :: 0 <= i < k ==> made[i].State() == Spec.EmptyShard(capacity)
        invariant forall i, j :: 0 <= i < j < k ==> made[i] != made[j] && made[i].frequency != made[j].frequency
      {
        var s := new Objects.Shard(capacity);
        made := made + [s];
      }
      this.hash, this.config, shards := hash, config, made;
      closed, hits, misses, sets, deletes := false, 0, 0, 0, 0;
      new;
      NewCacheValid(hash, Shards(), capacity);
      NoContents(Shards());
    }

    /** The part of Set under the shard's lock. */
    method SetHome(key: string, value: seq<Byte>, ttl: int)
      requires Valid() && SetError(config, key, value).None?
      modifies shards[Home(key)], shards[Home(key)].frequency
      ensures Valid() && Arrays() == old(Arrays())
      ensures Shards() == CacheSet(hash, config, old(Shards()), key, value, ttl)
    {
      CacheSetKeepsValid(hash, config, Shards(), key, value, ttl);
      var s := shards[Home(key)];
      var _ := s.Set(key, value, ttl, config.maxMemory / |shards|);
      OnlyShard(Home(key));
    }

    method Set(key: string, value: seq<Byte>, ttl: int) returns (r: Result<()>)
      requires Valid()
      modifies this`sets, shards[Home(key)], shards[Home(key)].frequency
      ensures Valid() && Arrays() == old(Arrays())
      ensures old(closed) ==> r == Err(Error.Closed) && Shards() == old(Shards())
      ensures !old(closed) ==>
                && Shards() == CacheSet(hash, config, old(Shards()), key, value, ttl)
                && r == (if key == "" || value == [] || |value| > config.maxPayload then Err(Invalid) else Ok(()))
      ensures sets == old(sets) + if r.Ok? then 1 else 0
    {
      if closed {
        return Err(Error.Closed);
      }
      if key == "" || value == [] || |value| > config.maxPayload {
        return Err(Invalid);
      }
      sets := sets + 1;
      SetHome(key, value, ttl);
      return Ok(());
    }

    /** The part of Get under the shard's lock. */
    method GetHome(key: string, expired: bool) returns (v: Option<seq<Byte>>)
      requires Valid()
      ensures v == Spec.Find(Contents(Shards()), key, expired)
    {
      FoundAtHome(hash, Shards(), key, expired);
      assert Shards()[Home(key)] == shards[Home(key)].State();
      v := shards[Home(key)].Get(key, expired);
    }

    /** A read answers from the whole map. */
    method Get(key: string, expired: bool) returns (r: Result<seq<Byte>>)
      requires Valid()
      modifies this`hits, this`misses
      ensures closed ==> r == Err(Error.Closed)
      ensures !closed && (key == "" || |key| > config.maxPayload) ==> r == Err(Invalid)
      ensures !closed && 0 < |key| <= config.maxPayload ==>
                var m := Contents(Shards());
                && r == Answer(m, key, expired)
                && r == (if key in m && !(m[key].ttl > 0 && expired) then Ok(m[key].value) else Err(NotFound))
      ensures hits == old(hits) + (if r.Ok? then 1 else 0) && misses == old(misses) + if r == Err(NotFound) then 1 else 0
    {
      if closed {
        return Err(Error.Closed);
      }
      if key == "" || |key| > config.maxPayload {
        return Err(Invalid);
      }
      var v := GetHome(key, expired);
      ghost var all := Shards();
      r := if v.None? then Err(NotFound) else Ok(v.value);
      Tally(v.Some?);
      assert Shards() == all;
    }

    /** Counts a read. */
    method Tally(hit: bool)
      modifies this`hits, this`misses
      ensures hits == old(hits) + (if hit then 1 else 0) && misses == old(misses) + if hit then 0 else 1
    {
      if hit {
        hits := hits + 1;
      } else {
        misses := misses + 1;
      }
    }

    /** The part of Delete under the shard's lock. */
    method DeleteHome(key: string) returns (found: bool)
      requires Valid() && key != ""
      modifies shards[Home(key)], shards[Home(key)].frequency
      ensures Valid()
      ensures Shards() == CacheDelete(hash, old(Shards()), key)
      ensures Contents(Shards()) == Contents(old(Shards())) - {key}
      ensures found == (key in Contents(old(Shards())))
    {
      DeleteRemovesKey(hash, Shards(), key);
      ContentsAt(hash, Shards(), key);
      var home := shards[Home(key)];
      assert home.State() == Shards()[Home(key)];
      found := home.Delete(key);
      OnlyShard(Home(key));
    }

    method TallyDelete()
      modifies this`deletes
      ensures deletes == old(deletes) + 1 && Shards() == old(Shards())
    {
      deletes := deletes + 1;
    }

    method Delete(key: string) returns (r: Result<()>)
      requires Valid()
      modifies this`deletes, shards[Home(key)], shards[Home(key)].frequency
      ensures Valid()
      ensures old(closed) ==> r == Err(Error.Closed) && Shards() == old(Shards())
      ensures !old(closed) ==>
                && Shards() == CacheDelete(hash, old(Shards()), key)
                && Contents(Shards()) == Contents(old(Shards())) - {key}
                && (key == "" ==> r == Err(Invalid))
                && (key != "" ==> r == if key in Contents(old(Shards())) then Ok(()) else Err(NotFound))
      ensures deletes == old(deletes) + if r.Ok? then 1 else 0
    {
      if closed {
        return Err(Error.Closed);
      }
      if key == "" {
        DeleteRemovesKey(hash, Shards(), key);
        return Err(Invalid);
      }
      var found := DeleteHome(key);
      if !found {
        return Err(NotFound);
      }
      TallyDelete();
      return Ok(());
    }

    /** Demote does not test for the empty key; no stored key is empty. */
    method Demote(key: string) returns (r: Result<()>)
      requires Valid()
      modifies shards[Home(key)], shards[Home(key)].frequency
      ensures Valid()
      ensures closed ==> r == Err(Error.Closed) && Shards() == old(Shards())
      ensures !closed ==>
                && r == (if key in Contents(old(Shards())) then Ok(()) else Err(NotFound))
                && Shards() == CacheDemote(hash, old(Shards()), key)
                && Contents(Shards()) == Contents(old(Shards())) - {key}
    {
      if closed {
        return Err(Error.Closed);
      }
      DemoteRemovesKey(hash, Shards(), key);
      ContentsAt(hash, Shards(), key);
      var found := shards[Home(key)].Demote(key);
      OnlyShard(Home(key));
      if !found {
        return Err(NotFound);
      }
      return Ok(());
    }

    method Stats() returns (r: Result<StatsRecord>)
      ensures closed ==> r == Err(Error.Closed)
      ensures !closed ==>
                && r.Ok? && r.value.entries == SumEntries(Shards())
                && r.value.memoryUsed == SumUsed(Shards()) && r.value.totalWeight == SumWeight(Shards())
                && r.value.memoryLimit == config.maxMemory && r.value.evictions == SumEvicts(Shards())
                && r.value.hits == hits && r.value.misses == misses && r.value.sets == sets && r.value.deletes == deletes
    {
      if closed {
        return Err(Error.Closed);
      }
      var totalEvicts: nat, totalEntries: nat, totalWeight: nat, totalMemory: nat := 0, 0, 0, 0;
      ghost var all := Shards();
      for i := 0 to |shards|
        invariant totalEntries == SumEntries(all[..i])
        invariant totalWeight == SumWeight(all[..i])
        invariant totalMemory == SumUsed(all[..i]) && totalEvicts == SumEvicts(all[..i])
      {
        var s := shards[i];
        SumsSnoc(all, i);
        SumEvictsSnoc(all, i);
        assert |s.entries| == |all[i].entries| && s.weight == all[i].weight && s.usedMemory == all[i].used && s.evicts == all[i].evicts;
        totalEvicts := totalEvicts + s.evicts;
        totalEntries := totalEntries + |s.entries|;
        totalWeight := totalWeight + s.weight;
        totalMemory := totalMemory + s.usedMemory;
      }
      assert all[..|shards|] == all;
      return Ok(StatsRecord(hits, misses, sets, deletes, totalEvicts, totalEntries, totalWeight, totalMemory, config.maxMemory));
    }
  }
}
