/**
 One L0 shard as a value (pkg/l0/l0_cache.go): what Set, Delete, Demote and the eviction pass do to
 the map, the ring and the running counters, and what every run of them keeps.
 */
module L0Spec {
  import opened Bytes
  import opened Totals
  import opened ClockRing

  const WEIGHT_UNIT := 4096

  datatype Entry = Entry(value: seq<Byte>, size: nat, weight: nat, ttl: int)

  /** Bytes in units of 4 KB, rounded up. */
  function Units(size: nat): nat {
    (size + WEIGHT_UNIT - 1) / WEIGHT_UNIT
  }

  function NewEntry(value: seq<Byte>, ttl: int): Entry {
    Entry(value, |value|, Units(|value|), ttl)
  }

  function SizeOf(e: Entry): nat { e.size }

  function WeightOf(e: Entry): nat { e.weight }

  datatype Shard = Shard(
    entries: map<string, Entry>,
    slots: seq<Slot>,
    hand: nat,
    freqSize: nat,
    used: nat,
    weight: nat,
    evicts: nat)

  predicate WellFormed(e: Entry) {
    e.value != [] && e == NewEntry(e.value, e.ttl)
  }

  predicate RingOk(s: Shard) {
    s.hand < |s.slots| && s.freqSize == Occupied(s.slots)
  }

  ghost predicate CountersOk(s: Shard) {
    s.used == Total(s.entries, SizeOf) && s.weight == Total(s.entries, WeightOf)
  }

  /** The shard invariant: ring, map and counters agree. */
  ghost predicate Valid(s: Shard) {
    && RingOk(s)
    && CountersOk(s)
    && forall k :: k in s.entries ==> k != "" && WellFormed(s.entries[k])
  }

  function EmptyShard(capacity: nat): Shard {
    Shard(map[], seq(capacity, _ => EMPTY_SLOT), 0, 0, 0, 0, 0)
  }

  // ---------------------------------------------------------------- the operations

  function Minus(a: nat, b: nat): nat {
    if b <= a then a - b else 0
  }

  /** The map and counters without `k`; the ring is left alone. */
  function Without(s: Shard, k: string): Shard
    requires k in s.entries
  {
    s.(entries := s.entries - {k}, used := Minus(s.used, s.entries[k].size), weight := Minus(s.weight, s.entries[k].weight))
  }

  /** Slot `j` emptied, its key evicted, and the hand just past it. */
  function EvictedAt(s: Shard, j: nat): Shard
    requires j < |s.slots| && s.slots[j].key in s.entries && s.freqSize > 0
  {
    var t := Without(s, s.slots[j].key);
    t.(slots := s.slots[j := EMPTY_SLOT], hand := (j + 1) % |s.slots|, freqSize := s.freqSize - 1, evicts := s.evicts + 1)
  }

  /** One eviction pass, and whether it evicted. */
  function EvictOne(s: Shard): (Shard, bool)
    requires RingOk(s)
  {
    if s.freqSize == 0 then (s, false)
    else
      var v := FirstVictim(s.slots, s.entries.Keys, s.hand, s.freqSize, 0);
      var slots := Strip(s.slots, s.hand, s.freqSize, v);
      if v == s.freqSize then (s.(slots := slots), false)
      else
        (EvictedAt(s.(slots := slots), Visit(s.hand, s.freqSize, v)), true)
  }

  function AddToClock(s: Shard, key: string, weight: nat): Shard
    requires RingOk(s)
  {
    var i := FirstEmpty(s.slots, s.hand, 0);
    if i == |s.slots| then s.(hand := (s.hand + 1) % |s.slots|)
    else s.(slots := s.slots[Visit(s.hand, |s.slots|, i) := Slot(key, true, weight)], freqSize := s.freqSize + 1)
  }

  lemma EvictOneKeepsRing(s: Shard)
    requires RingOk(s)
    ensures RingOk(EvictOne(s).0)
    ensures EvictOne(s).1 ==> |EvictOne(s).0.entries| == |s.entries| - 1
    ensures |EvictOne(s).0.slots| == |s.slots|
  {
    if s.freqSize > 0 {
      var v := FirstVictim(s.slots, s.entries.Keys, s.hand, s.freqSize, 0);
      StripKeepsOccupied(s.slots, s.hand, s.freqSize, v);
      if v < s.freqSize {
        var j := Visit(s.hand, s.freqSize, v);
        OccupiedUpdate(Strip(s.slots, s.hand, s.freqSize, v), j, EMPTY_SLOT);
        assert s.slots[j].key in s.entries;
      }
    }
  }

  /** Set's loop: bytes used plus weight units of the new entry against the limit; `gaveUp` if a pass evicted nothing. */
  function MakeRoom(s: Shard, weight: nat, limit: nat): (Shard, bool)
    requires RingOk(s)
    decreases |s.entries|
  {
    if s.used + weight <= limit || |s.entries| == 0 then (s, false)
    else
      EvictOneKeepsRing(s);
      var (s', evicted) := EvictOne(s);
      if evicted then MakeRoom(s', weight, limit) else (s', true)
  }

  function Insert(s: Shard, key: string, e: Entry): Shard {
    var t := if key in s.entries then Without(s, key) else s;
    t.(entries := t.entries[key := e], used := t.used + e.size, weight := t.weight + e.weight)
  }

  function Set(s: Shard, key: string, value: seq<Byte>, ttl: int, limit: nat): Shard
    requires RingOk(s)
  {
    var e := NewEntry(value, ttl);
    MakeRoomKeepsRing(s, e.weight, limit);
    AddToClock(Insert(MakeRoom(s, e.weight, limit).0, key, e), key, e.weight)
  }

  function Delete(s: Shard, key: string): Shard {
    if key in s.entries then Without(s, key) else s
  }

  /** The lowest slot that names `key`, or the capacity. */
  function SlotOf(slots: seq<Slot>, key: string, i: nat): (r: nat)
    requires i <= |slots|
    ensures i <= r <= |slots|
    ensures forall j :: i <= j < r ==> slots[j].key != key
    ensures r < |slots| ==> slots[r].key == key
    decreases |slots| - i
  {
    if i == |slots| || slots[i].key == key then i else SlotOf(slots, key, i + 1)
  }

  lemma SlotOfUsed(slots: seq<Slot>, i: nat)
    requires i < |slots| && Used(slots[i])
    ensures Occupied(slots) > 0
  {
    OccupiedNone(slots);
  }

  function Demote(s: Shard, key: string): Shard {
    if key !in s.entries then s
    else
      var j := SlotOf(s.slots, key, 0);
      var t := Without(s, key);
      if j == |s.slots| then t
      else t.(slots := s.slots[j := s.slots[j].(key := "", weight := 0)], freqSize := Minus(s.freqSize, 1))
  }

  /** A read finds the entry unless it is absent or has expired; `expired` is the clock's word on a positive TTL. */
  function Find(entries: map<string, Entry>, key: string, expired: bool): Option<seq<Byte>> {
    if key in entries && !(entries[key].ttl > 0 && expired) then Some(entries[key].value) else None
  }

  // ---------------------------------------------------------------- each keeps the invariant

  lemma WithoutKeepsCounters(s: Shard, k: string)
    requires CountersOk(s) && k in s.entries
    ensures CountersOk(Without(s, k))
    ensures s.entries[k].size <= s.used && s.entries[k].weight <= s.weight
  {
    TotalRemove(s.entries, SizeOf, k);
    TotalRemove(s.entries, WeightOf, k);
  }

  lemma WithoutKeepsValid(s: Shard, k: string)
    requires Valid(s) && k in s.entries
    ensures Valid(Without(s, k))
  {
    WithoutKeepsCounters(s, k);
  }

  lemma EvictOneKeepsValid(s: Shard)
    requires Valid(s)
    ensures Valid(EvictOne(s).0)
  {
    EvictOneKeepsRing(s);
    if EvictOne(s).1 {
      var v := FirstVictim(s.slots, s.entries.Keys, s.hand, s.freqSize, 0);
      WithoutKeepsValid(s, s.slots[Visit(s.hand, s.freqSize, v)].key);
    }
  }

  lemma {:induction false} MakeRoomKeepsRing(s: Shard, weight: nat, limit: nat)
    requires RingOk(s)
    ensures RingOk(MakeRoom(s, weight, limit).0)
    decreases |s.entries|
  {
    EvictOneKeepsRing(s);
    if s.used + weight > limit && |s.entries| > 0 && EvictOne(s).1 {
      MakeRoomKeepsRing(EvictOne(s).0, weight, limit);
    }
  }

  lemma {:induction false} MakeRoomKeepsValid(s: Shard, weight: nat, limit: nat)
    requires Valid(s)
    ensures Valid(MakeRoom(s, weight, limit).0)
    ensures MakeRoom(s, weight, limit).0.entries.Keys <= s.entries.Keys
    ensures MakeRoom(s, weight, limit).0.used <= s.used
    decreases |s.entries|
  {
    EvictOneKeepsRing(s);
    EvictOneKeepsValid(s);
    if s.used + weight > limit && |s.entries| > 0 && EvictOne(s).1 {
      MakeRoomKeepsValid(EvictOne(s).0, weight, limit);
    }
  }

  /** What is left after making room is as it was. */
  lemma {:induction false} MakeRoomKeepsEntries(s: Shard, weight: nat, limit: nat)
    requires Valid(s)
    ensures forall k :: k in MakeRoom(s, weight, limit).0.entries ==>
              k in s.entries && MakeRoom(s, weight, limit).0.entries[k] == s.entries[k]
    decreases |s.entries|
  {
    EvictOneKeepsValid(s);
    EvictOneKeepsRing(s);
    if s.used + weight > limit && |s.entries| > 0 && EvictOne(s).1 {
      MakeRoomKeepsEntries(EvictOne(s).0, weight, limit);
    }
  }

  lemma InsertKeepsValid(s: Shard, key: string, e: Entry)
    requires Valid(s) && key != "" && WellFormed(e)
    ensures Valid(Insert(s, key, e))
  {
    var t := if key in s.entries then Without(s, key) else s;
    if key in s.entries {
      WithoutKeepsValid(s, key);
    }
    TotalAdd(t.entries, SizeOf, key, e);
    TotalAdd(t.entries, WeightOf, key, e);
  }

  lemma AddToClockKeepsRing(s: Shard, key: string, weight: nat)
    requires RingOk(s) && key != ""
    ensures RingOk(AddToClock(s, key, weight))
    ensures Occupied(s.slots) < |s.slots| <==> FirstEmpty(s.slots, s.hand, 0) < |s.slots|
  {
    EmptyFoundIff(s.slots, s.hand);
    var i := FirstEmpty(s.slots, s.hand, 0);
    if i < |s.slots| {
      OccupiedUpdate(s.slots, Visit(s.hand, |s.slots|, i), Slot(key, true, weight));
    }
  }

  lemma SetKeepsValid(s: Shard, key: string, value: seq<Byte>, ttl: int, limit: nat)
    requires Valid(s) && key != "" && value != []
    ensures Valid(Set(s, key, value, ttl, limit))
    ensures key in Set(s, key, value, ttl, limit).entries && Set(s, key, value, ttl, limit).entries[key] == NewEntry(value, ttl)
  {
    var e := NewEntry(value, ttl);
    MakeRoomKeepsValid(s, e.weight, limit);
    InsertKeepsValid(MakeRoom(s, e.weight, limit).0, key, e);
    AddToClockKeepsRing(Insert(MakeRoom(s, e.weight, limit).0, key, e), key, e.weight);
  }

  /** Set leaves its own entry, and of the others only what was there. */
  lemma SetEntries(s: Shard, key: string, value: seq<Byte>, ttl: int, limit: nat)
    requires Valid(s) && key != "" && value != []
    ensures var r := Set(s, key, value, ttl, limit).entries;
            && key in r && r[key] == NewEntry(value, ttl)
            && forall k :: k in r && k != key ==> k in s.entries && r[k] == s.entries[k]
  {
    SetKeepsValid(s, key, value, ttl, limit);
    MakeRoomKeepsEntries(s, NewEntry(value, ttl).weight, limit);
  }

  lemma DeleteKeepsValid(s: Shard, key: string)
    requires Valid(s)
    ensures Valid(Delete(s, key))
  {
    if key in s.entries {
      WithoutKeepsValid(s, key);
    }
  }

  lemma DemoteKeepsValid(s: Shard, key: string)
    requires Valid(s)
    ensures Valid(Demote(s, key))
  {
    if key in s.entries {
      WithoutKeepsValid(s, key);
      var j := SlotOf(s.slots, key, 0);
      if j < |s.slots| {
        OccupiedUpdate(s.slots, j, s.slots[j].(key := "", weight := 0));
      }
    }
  }

  // ---------------------------------------------------------------- bytes against weight units

  lemma EntryUnits(e: Entry)
    requires WellFormed(e)
    ensures e.size <= WEIGHT_UNIT * e.weight < e.size + WEIGHT_UNIT
    ensures 1 <= e.weight <= e.size
  {
  }

  lemma {:induction false} TotalUnits(m: map<string, Entry>)
    requires forall k :: k in m ==> WellFormed(m[k])
    ensures Total(m, SizeOf) <= WEIGHT_UNIT * Total(m, WeightOf)
    ensures m != map[] ==> WEIGHT_UNIT * Total(m, WeightOf) < Total(m, SizeOf) + WEIGHT_UNIT * |m|
    ensures |m| <= Total(m, WeightOf) <= Total(m, SizeOf)
    decreases |m|
  {
    if m != map[] {
      var k := Pick(m);
      EntryUnits(m[k]);
      TotalUnits(m - {k});
      assert |m - {k}| == |m| - 1;
    }
  }

  /** The two counters never drift apart by more than one unit per entry. */
  lemma CountersAgree(s: Shard)
    requires Valid(s)
    ensures s.used <= 4096 * s.weight
    ensures s.entries != map[] ==> 4096 * s.weight < s.used + 4096 * |s.entries|
    ensures |s.entries| <= s.weight <= s.used
  {
    TotalUnits(s.entries);
  }

  // ---------------------------------------------------------------- eviction, as the caller sees it

  /** A pass evicts iff the range `[0, freqSize)` holds an unreferenced live key; if not, the map stays. */
  lemma EvictOneEvictsIff(s: Shard)
    requires RingOk(s)
    ensures EvictOne(s).1 <==> exists j :: 0 <= j < s.freqSize && Evictable(s.slots, s.entries.Keys, j)
    ensures !EvictOne(s).1 ==> EvictOne(s).0 == s.(slots := EvictOne(s).0.slots)
  {
    if s.freqSize > 0 {
      PassEvictsIff(s.slots, s.entries.Keys, s.hand, s.freqSize);
    }
  }

  /** If a pass evicts nothing, an immediate second one evicts exactly when the range names a live key. */
  lemma SecondChance(s: Shard)
    requires RingOk(s) && !EvictOne(s).1
    ensures RingOk(EvictOne(s).0)
    ensures EvictOne(EvictOne(s).0).1 <==> NamesLive(s.slots, s.entries.Keys, s.freqSize)
  {
    EvictOneKeepsRing(s);
    if s.freqSize > 0 {
      SecondPassEvictsIff(s.slots, s.entries.Keys, s.hand, s.freqSize);
    }
  }
}
