/**
 How much memory a shard can take (pkg/l0/l0_cache.go:208-235, 403-464): what clean Sets reach, when the
 next eviction pass has something to find, and why no bound holds for runs that delete keys.
 */
module L0Memory {
  import opened Bytes
  import opened Sequences
  import opened Payloads
  import opened ClockRing
  import opened L0Spec
  import opened L0Runs

  function Key(n: nat): (r: string)
    ensures |r| == n + 1
  {
    seq(n + 1, _ => 'k')
  }

  function Zeros(n: nat): (r: seq<Byte>)
    ensures |r| == n
  {
    seq(n, _ => 0)
  }

  predicate KeysShorter(s: Shard, n: nat) {
    forall k :: k in s.entries ==> |k| <= n
  }

  // ---------------------------------------------------------------- the clean bound is reached

  /** A Set of a new key where there is room, or nothing to evict. */
  lemma RoomySet(c: Limits, t: Track, n: nat, size: nat)
    requires Valid(t.s) && KeysShorter(t.s, n) && 0 < size <= c.maxPayload
    requires t.s.used + Units(size) <= c.limit || t.s.entries == map[]
    ensures var r := Step(c, t, DoSet(Key(n), Zeros(size), 0));
            r.s.used == t.s.used + size && r.gaveUps == 0 && KeysShorter(r.s, n + 1)
  {
    var e := NewEntry(Zeros(size), 0);
    assert Key(n) !in t.s.entries;
    InsertSize(t.s, Key(n), e);
    assert MakeRoom(t.s, e.weight, c.limit) == (t.s, false);
  }

  /** Payload after payload, the shard fills up to any target within the limit. */
  lemma FillTo(c: Limits, t: Track, n: nat, target: nat) returns (ops: seq<Op>, m: nat)
    requires Sane(c) && Valid(t.s) && KeysShorter(t.s, n) && t.gaveUps == 0
    requires t.s.used <= target <= c.limit
    ensures var r := Exec(c, t, ops); r.s.used == target && r.gaveUps == 0 && KeysShorter(r.s, m)
    decreases target - t.s.used
  {
    if t.s.used == target {
      ops, m := [], n;
    } else {
      var size := if target - t.s.used <= c.maxPayload then target - t.s.used else c.maxPayload;
      var op := DoSet(Key(n), Zeros(size), 0);
      UnitsGrow(size, size);
      RoomySet(c, t, n, size);
      StepKeepsValid(c, t, op);
      ops, m := FillTo(c, Step(c, t, op), n + 1, target);
      assert ([op] + ops)[1..] == ops;
      ops := [op] + ops;
    }
  }

  /** For every limit, payload limit and ring, clean Sets alone reach the bound that limits them. */
  lemma BoundIsReached(c: Limits, capacity: nat) returns (ops: seq<Op>)
    requires Sane(c) && capacity > 0
    ensures Valid(Start(capacity).s)
    ensures var t := Exec(c, Start(capacity), ops); t.gaveUps == 0 && t.s.used == CleanBound(c)
  {
    StartInv(c, capacity);
    var fill, m := FillTo(c, Start(capacity), 0, Minus(c.limit, Units(c.maxPayload)));
    var t := Exec(c, Start(capacity), fill);
    NoBytesNothing(t.s);
    RoomySet(c, t, m, c.maxPayload);
    var last := DoSet(Key(m), Zeros(c.maxPayload), 0);
    ExecOne(c, t, last);
    ExecConcat(c, Start(capacity), fill, [last]);
    ops := fill + [last];
  }

  lemma NoBytesNothing(s: Shard)
    requires Valid(s)
    ensures s.used == 0 ==> s.entries == map[]
  {
    CountersAgree(s);
    if |s.entries| == 0 {
      assert s.entries == map[];
    }
  }

  // ---------------------------------------------------------------- what a run may do

  /** Whether a run may delete keys, and whether it may set keys that are stored. */
  datatype Repertoire = Repertoire(deletes: bool, overwrites: bool)

  predicate Permits(r: Repertoire, s: Shard, op: Op) {
    match op
    case DoSet(key, _, _) => key in s.entries ==> r.overwrites
    case DoDelete(_) => r.deletes
    case DoDemote(_) => true
  }

  ghost predicate Permitted(r: Repertoire, c: Limits, t: Track, ops: seq<Op>)
    requires Valid(t.s)
    decreases ops
  {
    ops == [] ||
    (Permits(r, t.s, ops[0]) && (StepKeepsValid(c, t, ops[0]); Permitted(r, c, Step(c, t, ops[0]), ops[1..])))
  }

  lemma {:induction false} PermittedConcat(r: Repertoire, c: Limits, t: Track, a: seq<Op>, b: seq<Op>)
    requires Valid(t.s) && Permitted(r, c, t, a) && Permitted(r, c, Exec(c, t, a), b)
    ensures Permitted(r, c, t, a + b)
    decreases a
  {
    if a == [] {
      NothingFirst(b);
    } else {
      StepKeepsValid(c, t, a[0]);
      PermittedConcat(r, c, Step(c, t, a[0]), a[1..], b);
      ConcatTail(a, b);
    }
  }

  lemma PermittedOne(r: Repertoire, c: Limits, t: Track, op: Op)
    requires Valid(t.s) && Permits(r, t.s, op)
    ensures Permitted(r, c, t, [op])
  {
    StepKeepsValid(c, t, op);
    assert [op][1..] == [];
    assert Permitted(r, c, Step(c, t, op), []);
  }

  const DELETES := Repertoire(true, false)

  // ---------------------------------------------------------------- Deletes

  /** A full ring none of whose slots names a stored key. */
  predicate DeadRing(s: Shard) {
    |s.slots| > 0 && forall j :: 0 <= j < |s.slots| ==> Used(s.slots[j]) && s.slots[j].key !in s.entries
  }

  predicate SameNames(s: Shard, t: Shard) {
    |s.slots| == |t.slots| && forall j :: 0 <= j < |s.slots| ==> s.slots[j].key == t.slots[j].key
  }

  lemma DeadRingMakesNoRoom(s: Shard, weight: nat, limit: nat)
    requires Valid(s) && DeadRing(s)
    ensures var r := MakeRoom(s, weight, limit).0;
            r == s.(slots := r.slots) && SameNames(s, r)
  {
    EvictOneEvictsIff(s);
    OccupiedFull(s.slots);
  }

  /** A dead ring stays dead and evicts nothing, whatever is done with keys it does not name. */
  lemma DeadRingStays(c: Limits, t: Track, op: Op)
    requires Valid(t.s) && DeadRing(t.s) && !HasSlot(t.s.slots, op.key)
    ensures var r := Step(c, t, op); DeadRing(r.s) && SameNames(t.s, r.s) && r.s.evicts == t.s.evicts
    ensures op.DoSet? && Storable(c.maxPayload, op.key, op.value) && op.key !in t.s.entries ==>
              var r := Step(c, t, op);
              r.s.used == t.s.used + |op.value| && r.s.entries.Keys == t.s.entries.Keys + {op.key}
  {
    match op
    case DoSet(key, value, ttl) =>
      if Storable(c.maxPayload, key, value) {
        var e := NewEntry(value, ttl);
        DeadRingMakesNoRoom(t.s, e.weight, c.limit);
        DeadRingInsert(t.s, MakeRoom(t.s, e.weight, c.limit).0, key, e);
      }
    case DoDelete(key) =>
    case DoDemote(key) => assert t.s.slots == Demote(t.s, key).slots;
  }

  lemma DeadRingInsert(s: Shard, room: Shard, key: string, e: Entry)
    requires Valid(s) && DeadRing(s) && room == s.(slots := room.slots) && SameNames(s, room)
    requires key != "" && !HasSlot(s.slots, key)
    ensures RingOk(room)
    ensures var r := AddToClock(Insert(room, key, e), key, e.weight);
            && DeadRing(r) && SameNames(s, r) && r.evicts == s.evicts
            && (key !in s.entries ==> r.used == s.used + e.size && r.entries.Keys == s.entries.Keys + {key})
  {
    OccupiedByKeys(s.slots, room.slots);
    var put := Insert(room, key, e);
    OccupiedFull(put.slots);
    EmptyFoundIff(put.slots, put.hand);
    assert put.entries.Keys == s.entries.Keys + {key};
    forall j | 0 <= j < |put.slots| ensures put.slots[j].key != key {
      assert s.slots[j].key == put.slots[j].key;
    }
  }

  /** Nothing is stored and the ring names one deleted key, as often as it was set. */
  predicate Emptied(s: Shard) {
    s.entries == map[] && forall j :: 0 <= j < |s.slots| && Used(s.slots[j]) ==> s.slots[j].key == Key(0)
  }

  /** Setting and deleting one key leaves one more stale slot each time. */
  lemma SetAndDelete(c: Limits, t: Track)
    requires Sane(c) && Valid(t.s) && Emptied(t.s) && t.s.freqSize < |t.s.slots|
    ensures var r := Exec(c, t, [DoSet(Key(0), [1], 0), DoDelete(Key(0))]);
            Emptied(r.s) && r.s.freqSize == t.s.freqSize + 1 && |r.s.slots| == |t.s.slots|
    ensures Permitted(DELETES, c, t, [DoSet(Key(0), [1], 0), DoDelete(Key(0))])
  {
    var set0, del0 := DoSet(Key(0), [1], 0), DoDelete(Key(0));
    var u := Step(c, t, set0);
    AddToClockKeepsRing(Insert(t.s, Key(0), NewEntry([1], 0)), Key(0), 1);
    StepKeepsValid(c, t, set0);
    assert [set0, del0] == [set0] + [del0];
    ExecOne(c, t, set0);
    ExecOne(c, u, del0);
    PermittedOne(DELETES, c, t, set0);
    PermittedOne(DELETES, c, u, del0);
    PermittedConcat(DELETES, c, t, [set0], [del0]);
    ExecConcat(c, t, [set0], [del0]);
    assert u.s.entries == map[Key(0) := NewEntry([1], 0)];
  }

  lemma KillRing(c: Limits, t: Track) returns (ops: seq<Op>)
    requires Sane(c) && Valid(t.s) && Emptied(t.s) && |t.s.slots| > 0
    ensures var r := Exec(c, t, ops); Emptied(r.s) && DeadRing(r.s)
    ensures Permitted(DELETES, c, t, ops)
    decreases |t.s.slots| - t.s.freqSize
  {
    if t.s.freqSize == |t.s.slots| {
      ops := [];
      OccupiedFull(t.s.slots);
    } else {
      var pair := [DoSet(Key(0), [1], 0), DoDelete(Key(0))];
      SetAndDelete(c, t);
      var rest := KillRing(c, Exec(c, t, pair));
      ExecConcat(c, t, pair, rest);
      PermittedConcat(DELETES, c, t, pair, rest);
      ops := pair + rest;
    }
  }

  /** The ring names one key only, and every stored key is longer. */
  predicate OneName(s: Shard, n: nat) {
    DeadRing(s) && KeysShorter(s, n) && forall j :: 0 <= j < |s.slots| ==> s.slots[j].key == Key(0)
  }

  lemma GrowOne(c: Limits, t: Track, n: nat)
    requires Sane(c) && Valid(t.s) && OneName(t.s, n) && n > 0
    ensures var r := Step(c, t, DoSet(Key(n), Zeros(c.maxPayload), 0));
            OneName(r.s, n + 1) && r.s.used == t.s.used + c.maxPayload
  {
    assert !HasSlot(t.s.slots, Key(n)) && Key(n) !in t.s.entries;
    DeadRingStays(c, t, DoSet(Key(n), Zeros(c.maxPayload), 0));
  }

  /** With a dead ring every new key adds a whole payload. */
  lemma Grow(c: Limits, t: Track, n: nat, bound: nat) returns (ops: seq<Op>)
    requires Sane(c) && Valid(t.s) && OneName(t.s, n) && n > 0
    ensures Exec(c, t, ops).s.used > bound && Permitted(DELETES, c, t, ops)
    decreases bound - t.s.used
  {
    if t.s.used > bound {
      ops := [];
    } else {
      var op := DoSet(Key(n), Zeros(c.maxPayload), 0);
      GrowOne(c, t, n);
      StepKeepsValid(c, t, op);
      var rest := Grow(c, Step(c, t, op), n + 1, bound);
      assert ([op] + rest)[1..] == rest;
      ops := [op] + rest;
    }
  }

  /**
   No bound on a shard's memory holds for all runs that may delete, whatever the limit, the payload limit
   and the ring: once Deletes have filled the ring with stale names, eviction finds nothing ever again.
   */
  lemma DeletesAreUnbounded(c: Limits, capacity: nat, bound: nat) returns (ops: seq<Op>)
    requires Sane(c) && capacity > 0
    ensures Valid(Start(capacity).s)
    ensures Exec(c, Start(capacity), ops).s.used > bound && Permitted(DELETES, c, Start(capacity), ops)
  {
    StartInv(c, capacity);
    var kill := KillRing(c, Start(capacity));
    var t := Exec(c, Start(capacity), kill);
    var grow := Grow(c, t, 1, bound);
    ExecConcat(c, Start(capacity), kill, grow);
    PermittedConcat(DELETES, c, Start(capacity), kill, grow);
    ops := kill + grow;
  }

  // ---------------------------------------------------------------- after giving up

  lemma {:induction false} GaveUpStripped(s: Shard, weight: nat, limit: nat)
    requires Valid(s) && MakeRoom(s, weight, limit).1
    ensures var r := MakeRoom(s, weight, limit).0;
            Valid(r) && forall j :: 0 <= j < r.freqSize && Used(r.slots[j]) ==> !r.slots[j].reference
    decreases |s.entries|
  {
    MakeRoomKeepsValid(s, weight, limit);
    EvictOneKeepsValid(s);
    EvictOneKeepsRing(s);
    if EvictOne(s).1 {
      GaveUpStripped(EvictOne(s).0, weight, limit);
    }
  }

  /** When Set gives up, the next pass will evict exactly if the range of the scan names a stored key. */
  lemma NextPassEvictsIff(s: Shard, weight: nat, limit: nat)
    requires Valid(s) && MakeRoom(s, weight, limit).1
    ensures var r := MakeRoom(s, weight, limit).0;
            RingOk(r) && (EvictOne(r).1 <==> NamesLive(r.slots, r.entries.Keys, r.freqSize))
  {
    var r := MakeRoom(s, weight, limit).0;
    GaveUpStripped(s, weight, limit);
    EvictOneEvictsIff(r);
    if NamesLive(r.slots, r.entries.Keys, r.freqSize) {
      var j :| 0 <= j < r.freqSize && Used(r.slots[j]) && r.slots[j].key in r.entries.Keys;
      assert Evictable(r.slots, r.entries.Keys, j);
    }
  }
}
