/**
 Whole runs of one L0 shard (pkg/l0/l0_cache.go): accounting, ring/map coherence and the memory
 bound that really holds.

 Set compares bytes plus weight units with the limit and stops evicting after the first pass that
 only cleared bits, so usedMemory <= limit is not an invariant.
 */
module L0Runs {
  import opened Bytes
  import opened Payloads
  import opened Sequences
  import opened Totals
  import opened ClockRing
  import opened L0Spec

  datatype Op =
    | DoSet(key: string, value: seq<Byte>, ttl: int)
    | DoDelete(key: string)
    | DoDemote(key: string)

  datatype Limits = Limits(limit: nat, maxPayload: nat)

  /** What validated configurations give every shard: a positive share of memory and payload size. */
  predicate Sane(c: Limits) {
    c.limit > 0 && c.maxPayload > 0
  }

  /**
   A shard with the history its counters are judged by.  `gaveUps` counts the Sets since the last
   clean one whose eviction loop stopped on a pass that evicted nothing; `unslotted` holds the keys
   whose last Set found the ring full.
   */
  datatype Track = Track(
    s: Shard,
    inserts: nat,
    deletes: nat,
    demotions: nat,
    gaveUps: nat,
    unslotted: set<string>)

  function Start(capacity: nat): Track {
    Track(EmptyShard(capacity), 0, 0, 0, 0, {})
  }

  function Step(c: Limits, t: Track, op: Op): Track
    requires RingOk(t.s)
  {
    match op
    case DoSet(key, value, ttl) =>
      if !Storable(c.maxPayload, key, value) then t
      else
        var weight := NewEntry(value, ttl).weight;
        var (room, gaveUp) := MakeRoom(t.s, weight, c.limit);
        t.(s := Set(t.s, key, value, ttl, c.limit),
           inserts := if key in room.entries then t.inserts else t.inserts + 1,
           gaveUps := if gaveUp then t.gaveUps + 1 else 0,
           unslotted := if Occupied(room.slots) == |room.slots| then t.unslotted + {key} else t.unslotted - {key})
    case DoDelete(key) =>
      t.(s := Delete(t.s, key), deletes := if key in t.s.entries then t.deletes + 1 else t.deletes)
    case DoDemote(key) =>
      t.(s := Demote(t.s, key), demotions := if key in t.s.entries then t.demotions + 1 else t.demotions)
  }

  ghost function Exec(c: Limits, t: Track, ops: seq<Op>): (r: Track)
    requires Valid(t.s)
    ensures Valid(r.s)
    decreases ops
  {
    if ops == [] then t
    else
      StepKeepsValid(c, t, ops[0]);
      Exec(c, Step(c, t, ops[0]), ops[1..])
  }

  lemma StepKeepsValid(c: Limits, t: Track, op: Op)
    requires Valid(t.s)
    ensures Valid(Step(c, t, op).s)
  {
    match op
    case DoSet(key, value, ttl) =>
      if Storable(c.maxPayload, key, value) {
        SetKeepsValid(t.s, key, value, ttl, c.limit);
      }
    case DoDelete(key) => DeleteKeepsValid(t.s, key);
    case DoDemote(key) => DemoteKeepsValid(t.s, key);
  }

  /** Fresh inserts = live entries + evictions + deletes + demotions. */
  predicate Conserved(t: Track) {
    t.inserts == |t.s.entries| + t.s.evicts + t.deletes + t.demotions
  }

  /** Every live key has a slot or was last set while the ring was full. */
  predicate Coherent(t: Track) {
    forall k :: k in t.s.entries ==> HasSlot(t.s.slots, k) || k in t.unslotted
  }

  /** What a Set that did not give up can leave at most: the entry's bytes count, but only its units were made room for. */
  function CleanBound(c: Limits): nat {
    c.maxPayload + Minus(c.limit, Units(c.maxPayload))
  }

  predicate Bounded(c: Limits, t: Track) {
    t.s.used <= CleanBound(c) + t.gaveUps * c.maxPayload
  }

  ghost predicate Inv(c: Limits, t: Track) {
    Valid(t.s) && Conserved(t) && Coherent(t) && Bounded(c, t)
  }

  // ---------------------------------------------------------------- eviction

  lemma RemoveKey<V>(m: map<string, V>, k: string)
    requires k in m
    ensures |m - {k}| == |m| - 1
  {
    assert (m - {k}).Keys == m.Keys - {k};
  }

  lemma KeepsSlots(s: seq<Slot>, t: seq<Slot>, gone: string)
    requires |s| == |t|
    requires forall j :: 0 <= j < |s| ==> t[j].key == s[j].key || s[j].key == gone || s[j].key == ""
    ensures forall k :: k != gone && k != "" && HasSlot(s, k) ==> HasSlot(t, k)
  {
    forall k | k != gone && k != "" && HasSlot(s, k) ensures HasSlot(t, k) {
      var j :| 0 <= j < |s| && s[j].key == k;
      assert t[j].key == k;
    }
  }

  lemma EvictOneCounts(s: Shard)
    requires Valid(s)
    ensures var (s', evicted) := EvictOne(s);
            |s'.entries| + s'.evicts == |s.entries| + s.evicts && s'.entries.Keys <= s.entries.Keys
  {
    if EvictOne(s).1 {
      var v := FirstVictim(s.slots, s.entries.Keys, s.hand, s.freqSize, 0);
      RemoveKey(s.entries, s.slots[Visit(s.hand, s.freqSize, v)].key);
    }
  }

  /** The slots of a pass that evicts at turn `v`: all as before, but for the bits and the victim's. */
  lemma VictimSlots(slots: seq<Slot>, hand: nat, n: nat, v: nat)
    requires v < n <= |slots|
    ensures var j := Visit(hand, n, v);
            forall k :: k != slots[j].key && k != "" && HasSlot(slots, k) ==> HasSlot(Strip(slots, hand, n, v)[j := EMPTY_SLOT], k)
  {
    var j := Visit(hand, n, v);
    KeepsSlots(slots, Strip(slots, hand, n, v)[j := EMPTY_SLOT], slots[j].key);
  }

  lemma EvictOneSlots(s: Shard)
    requires Valid(s)
    ensures var s' := EvictOne(s).0;
            forall k :: k in s'.entries && HasSlot(s.slots, k) ==> HasSlot(s'.slots, k)
  {
    if s.freqSize > 0 {
      var v := FirstVictim(s.slots, s.entries.Keys, s.hand, s.freqSize, 0);
      if v < s.freqSize {
        VictimSlots(s.slots, s.hand, s.freqSize, v);
      } else {
        KeepsSlots(s.slots, Strip(s.slots, s.hand, s.freqSize, v), "");
      }
    }
  }

  /** Making room: nothing is lost but to evictions, and it gave up exactly when there is still no room, nor nothing left. */
  lemma {:induction false} MakeRoomHistory(s: Shard, weight: nat, limit: nat)
    requires Valid(s)
    ensures var (r, gaveUp) := MakeRoom(s, weight, limit);
            && |r.entries| + r.evicts == |s.entries| + s.evicts
            && r.entries.Keys <= s.entries.Keys
            && (forall k :: k in r.entries && HasSlot(s.slots, k) ==> HasSlot(r.slots, k))
            && (gaveUp <==> r.used + weight > limit && |r.entries| > 0)
            && (|r.entries| == 0 ==> r.used == 0)
            && r.used <= s.used
    decreases |s.entries|
  {
    MakeRoomKeepsValid(s, weight, limit);
    if s.used + weight > limit && |s.entries| > 0 {
      EvictOneKeepsValid(s);
      EvictOneKeepsRing(s);
      EvictOneCounts(s);
      EvictOneSlots(s);
      if EvictOne(s).1 {
        MakeRoomHistory(EvictOne(s).0, weight, limit);
      }
    }
    NothingNoBytes(MakeRoom(s, weight, limit).0);
  }

  lemma NothingNoBytes(s: Shard)
    requires Valid(s)
    ensures |s.entries| == 0 ==> s.used == 0
  {
    if |s.entries| == 0 {
      assert s.entries == map[];
    }
  }

  // ---------------------------------------------------------------- steps

  lemma InsertSize(s: Shard, key: string, e: Entry)
    requires Valid(s)
    ensures |Insert(s, key, e).entries| == |s.entries| + if key in s.entries then 0 else 1
    ensures Insert(s, key, e).used <= s.used + e.size
    ensures Insert(s, key, e).entries.Keys == s.entries.Keys + {key}
  {
    assert Insert(s, key, e).entries.Keys == s.entries.Keys + {key};
  }

  lemma AddToClockSlots(s: Shard, key: string, weight: nat)
    requires RingOk(s) && key != ""
    ensures Occupied(s.slots) < |s.slots| ==> HasSlot(AddToClock(s, key, weight).slots, key)
    ensures forall k :: k != "" && HasSlot(s.slots, k) ==> HasSlot(AddToClock(s, key, weight).slots, k)
  {
    AddToClockKeepsRing(s, key, weight);
    var i := FirstEmpty(s.slots, s.hand, 0);
    if i < |s.slots| {
      KeepsSlots(s.slots, AddToClock(s, key, weight).slots, "");
      assert AddToClock(s, key, weight).slots[Visit(s.hand, |s.slots|, i)].key == key;
    }
  }

  /** A key that enters the ring gets a second chance: the next pass evicts another key, or none. */
  lemma NewKeySurvivesNextPass(s: Shard, key: string, weight: nat)
    requires RingOk(s) && key != "" && key in s.entries && !HasSlot(s.slots, key)
    ensures RingOk(AddToClock(s, key, weight))
    ensures key in EvictOne(AddToClock(s, key, weight)).0.entries
  {
    AddToClockKeepsRing(s, key, weight);
    var t := AddToClock(s, key, weight);
    forall j | 0 <= j < |t.slots| && t.slots[j].key == key ensures t.slots[j].reference {
      assert s.slots[j].key != key;
    }
  }

  lemma SetKeepsConserved(c: Limits, t: Track, op: Op)
    requires Inv(c, t) && op.DoSet? && Storable(c.maxPayload, op.key, op.value)
    ensures Conserved(Step(c, t, op))
  {
    var e := NewEntry(op.value, op.ttl);
    var room := MakeRoom(t.s, e.weight, c.limit).0;
    MakeRoomKeepsValid(t.s, e.weight, c.limit);
    MakeRoomHistory(t.s, e.weight, c.limit);
    InsertSize(room, op.key, e);
  }

  lemma SetKeepsCoherent(c: Limits, t: Track, op: Op)
    requires Inv(c, t) && op.DoSet? && Storable(c.maxPayload, op.key, op.value)
    ensures Coherent(Step(c, t, op))
  {
    var e := NewEntry(op.value, op.ttl);
    var room := MakeRoom(t.s, e.weight, c.limit).0;
    MakeRoomKeepsValid(t.s, e.weight, c.limit);
    MakeRoomHistory(t.s, e.weight, c.limit);
    var put := Insert(room, op.key, e);
    AddToClockSlots(put, op.key, e.weight);
    var t' := Step(c, t, op);
    forall k | k in t'.s.entries ensures HasSlot(t'.s.slots, k) || k in t'.unslotted {
      if k != op.key {
        assert k in room.entries;
        assert HasSlot(t.s.slots, k) ==> HasSlot(put.slots, k);
      }
    }
  }

  lemma SetUsed(c: Limits, t: Track, op: Op)
    requires Sane(c) && Valid(t.s) && op.DoSet? && Storable(c.maxPayload, op.key, op.value)
    ensures var t' := Step(c, t, op);
            || (t'.gaveUps == t.gaveUps + 1 && t'.s.used <= t.s.used + c.maxPayload)
            || (t'.gaveUps == 0 && t'.s.used <= CleanBound(c))
  {
    var e := NewEntry(op.value, op.ttl);
    var room := MakeRoom(t.s, e.weight, c.limit).0;
    MakeRoomKeepsValid(t.s, e.weight, c.limit);
    MakeRoomHistory(t.s, e.weight, c.limit);
    InsertSize(room, op.key, e);
    UnitsGrow(e.size, c.maxPayload);
    assert Step(c, t, op).s.used == Insert(room, op.key, e).used;
  }

  /** A larger value takes at least as many more bytes as units. */
  lemma UnitsGrow(a: nat, b: nat)
    requires a <= b
    ensures Units(a) <= Units(b) <= Units(a) + (b - a)
    ensures Units(a) <= a && (a > 0 ==> Units(a) > 0)
  {
  }

  lemma WithinBound(c: Limits, t: Track, t': Track)
    requires Bounded(c, t)
    requires (t'.gaveUps == t.gaveUps + 1 && t'.s.used <= t.s.used + c.maxPayload)
          || (t'.gaveUps == 0 && t'.s.used <= CleanBound(c))
    ensures Bounded(c, t')
  {
  }

  lemma DeleteKeepsHistory(c: Limits, t: Track, op: Op)
    requires Inv(c, t) && op.DoDelete?
    ensures Conserved(Step(c, t, op)) && Coherent(Step(c, t, op)) && Bounded(c, Step(c, t, op))
  {
    if op.key in t.s.entries {
      RemoveKey(t.s.entries, op.key);
    }
  }

  lemma DemoteKeepsHistory(c: Limits, t: Track, op: Op)
    requires Inv(c, t) && op.DoDemote?
    ensures Conserved(Step(c, t, op)) && Coherent(Step(c, t, op)) && Bounded(c, Step(c, t, op))
  {
    if op.key in t.s.entries {
      RemoveKey(t.s.entries, op.key);
      KeepsSlots(t.s.slots, Demote(t.s, op.key).slots, op.key);
    }
  }

  lemma StepKeepsInv(c: Limits, t: Track, op: Op)
    requires Sane(c) && Inv(c, t)
    ensures Inv(c, Step(c, t, op))
  {
    StepKeepsValid(c, t, op);
    match op
    case DoSet(key, value, _) =>
      if Storable(c.maxPayload, key, value) {
        SetKeepsConserved(c, t, op);
        SetKeepsCoherent(c, t, op);
        SetUsed(c, t, op);
        WithinBound(c, t, Step(c, t, op));
      }
    case DoDelete(_) => DeleteKeepsHistory(c, t, op);
    case DoDemote(_) => DemoteKeepsHistory(c, t, op);
  }

  lemma StartInv(c: Limits, capacity: nat)
    requires Sane(c) && capacity > 0
    ensures Inv(c, Start(capacity))
  {
    OccupiedNone(Start(capacity).s.slots);
  }

  lemma {:induction false} RunKeepsInv(c: Limits, t: Track, ops: seq<Op>)
    requires Sane(c) && Inv(c, t)
    ensures Inv(c, Exec(c, t, ops))
    decreases ops
  {
    if ops != [] {
      StepKeepsInv(c, t, ops[0]);
      RunKeepsInv(c, Step(c, t, ops[0]), ops[1..]);
    }
  }

  /**
   After every mix of Sets, Deletes and Demotes on a new shard: counters equal the sums over the map,
   freqSize equals the occupied slots, nothing is lost but to evictions, deletes and demotions, every
   live key has a slot or met a full ring, and memory is within the bound.
   */
  lemma ShardInvariant(c: Limits, capacity: nat, ops: seq<Op>)
    requires Sane(c) && capacity > 0
    ensures Valid(Start(capacity).s)
    ensures var t := Exec(c, Start(capacity), ops);
            && t.s.used == Total(t.s.entries, SizeOf) && t.s.weight == Total(t.s.entries, WeightOf)
            && t.s.freqSize == Occupied(t.s.slots) && t.s.hand < |t.s.slots|
            && t.inserts == |t.s.entries| + t.s.evicts + t.deletes + t.demotions
            && (forall k :: k in t.s.entries ==> HasSlot(t.s.slots, k) || k in t.unslotted)
            && t.s.used <= CleanBound(c) + t.gaveUps * c.maxPayload && CleanBound(c) <= c.limit + (c.maxPayload - 1)
            && t.s.used <= WEIGHT_UNIT * t.s.weight
            && (t.s.entries != map[] ==> WEIGHT_UNIT * t.s.weight < t.s.used + WEIGHT_UNIT * |t.s.entries|)
  {
    StartInv(c, capacity);
    RunKeepsInv(c, Start(capacity), ops);
    CountersAgree(Exec(c, Start(capacity), ops).s);
    UnitsGrow(c.maxPayload, c.maxPayload);
  }

  lemma {:induction false} ExecConcat(c: Limits, t: Track, a: seq<Op>, b: seq<Op>)
    requires Valid(t.s)
    ensures Exec(c, t, a + b) == Exec(c, Exec(c, t, a), b)
    decreases a
  {
    if a == [] {
      NothingFirst(b);
    } else {
      StepKeepsValid(c, t, a[0]);
      assert (a + b)[1..] == a[1..] + b;
      ExecConcat(c, Step(c, t, a[0]), a[1..], b);
    }
  }

  lemma ExecOne(c: Limits, t: Track, a: Op)
    requires Valid(t.s)
    ensures Exec(c, t, [a]) == Step(c, t, a)
  {
    StepKeepsValid(c, t, a);
    assert [a][1..] == [];
    assert Exec(c, Step(c, t, a), []) == Step(c, t, a);
  }
}
