/**
 Runs that set stored keys (pkg/l0/l0_cache.go:208-235, 403-464), and exactly which runs of a shard are
 bounded.

 Every Set adds a slot, so setting one key fills the ring with its name.  Once it is evicted all but one
 of the slots are stale, and every second new key is left without a slot for good.
 */
module L0Overwrites {
  import opened Bytes
  import opened Payloads
  import opened Totals
  import opened ClockRing
  import opened L0Spec
  import opened L0Runs
  import opened L0Memory
  import opened L0Fresh

  const OVERWRITES := Repertoire(false, true)

  // ---------------------------------------------------------------- one key fills the ring

  /** One small entry is stored, and every used slot names it. */
  predicate Repeated(s: Shard) {
    && s.entries == map[Key(0) := NewEntry([1], 0)]
    && forall j :: 0 <= j < |s.slots| && Used(s.slots[j]) ==> s.slots[j].key == Key(0)
  }

  lemma RepeatedUsed(s: Shard)
    requires Valid(s) && Repeated(s)
    ensures s.used == 1
  {
    TotalRemove(s.entries, SizeOf, Key(0));
    assert s.entries - {Key(0)} == map[];
  }

  /** Setting it again adds a slot and nothing else. */
  lemma SetAgain(c: Limits, t: Track)
    requires Sane(c) && c.limit > 1 && Valid(t.s) && t.s.freqSize < |t.s.slots|
    requires Repeated(t.s) || (t.s.entries == map[] && t.s.freqSize == 0)
    ensures var r := Step(c, t, DoSet(Key(0), [1], 0));
            Repeated(r.s) && r.s.freqSize == t.s.freqSize + 1 && |r.s.slots| == |t.s.slots|
  {
    var e := NewEntry([1], 0);
    if Repeated(t.s) {
      RepeatedUsed(t.s);
    } else {
      OccupiedNone(t.s.slots);
    }
    assert MakeRoom(t.s, e.weight, c.limit) == (t.s, false);
    AddToClockKeepsRing(Insert(t.s, Key(0), e), Key(0), e.weight);
    assert Insert(t.s, Key(0), e).entries == map[Key(0) := e];
  }

  lemma FillRing(c: Limits, t: Track) returns (ops: seq<Op>)
    requires Sane(c) && c.limit > 1 && Valid(t.s) && |t.s.slots| > 0
    requires Repeated(t.s) || (t.s.entries == map[] && t.s.freqSize == 0)
    ensures var r := Exec(c, t, ops);
            Repeated(r.s) && r.s.freqSize == |r.s.slots| == |t.s.slots|
    ensures Permitted(OVERWRITES, c, t, ops)
    decreases |t.s.slots| - t.s.freqSize
  {
    if t.s.freqSize == |t.s.slots| {
      ops := [];
    } else {
      var op := DoSet(Key(0), [1], 0);
      SetAgain(c, t);
      StepKeepsValid(c, t, op);
      var rest := FillRing(c, Step(c, t, op));
      assert ([op] + rest)[1..] == rest;
      ops := [op] + rest;
    }
  }

  // ---------------------------------------------------------------- a clogged ring

  /** All slots but perhaps one name the first key; it is stored only if they all do. */
  predicate Clogged(s: Shard, i: nat) {
    && i < |s.slots|
    && (forall j :: 0 <= j < |s.slots| && j != i ==> s.slots[j].key == Key(0))
    && (Key(0) in s.entries ==> s.slots[i].key == Key(0))
    && (Used(s.slots[i]) ==> s.slots[i].key in s.entries)
  }

  /** The ring is full, and the one slot that counts is protected from the next pass. */
  predicate Shielded(s: Shard, i: nat) {
    Clogged(s, i) && Key(0) !in s.entries && Marked(s.slots[i])
  }

  lemma CloggedFull(s: Shard, i: nat)
    requires Valid(s) && Clogged(s, i)
    ensures Used(s.slots[i]) <==> s.freqSize == |s.slots|
  {
    OccupiedFull(s.slots);
  }

  /** A pass over a clogged ring changes no names, or empties one slot and leaves the rest stale. */
  lemma EvictOneClogged(s: Shard, i: nat) returns (k: nat)
    requires Valid(s) && Clogged(s, i)
    ensures var r := EvictOne(s).0;
            && Clogged(r, k)
            && (EvictOne(s).1 ==> !Used(r.slots[k]) && Key(0) !in r.entries && Used(s.slots[i]))
            && (!EvictOne(s).1 ==> k == i && r.entries == s.entries && SameNames(s, r))
            && (Shielded(s, i) ==> !EvictOne(s).1)
            && (!Used(s.slots[i]) ==> !EvictOne(s).1)
  {
    EvictOneEvictsIff(s);
    k := i;
    if EvictOne(s).1 {
      k := Visit(s.hand, s.freqSize, FirstVictim(s.slots, s.entries.Keys, s.hand, s.freqSize, 0));
      assert Evictable(s.slots, s.entries.Keys, k);
    }
  }

  /** Making room leaves the ring as full as it was, or with its one live slot empty. */
  lemma MakeRoomClogged(s: Shard, weight: nat, limit: nat, i: nat) returns (k: nat)
    requires Valid(s) && Clogged(s, i)
    ensures var r := MakeRoom(s, weight, limit).0;
            && Clogged(r, k) && |r.slots| == |s.slots| && r.entries.Keys <= s.entries.Keys
            && (Used(r.slots[k]) ==> SameNames(s, r) && r.entries == s.entries)
            && (!Used(r.slots[k]) ==> Key(0) !in r.entries)
            && (Shielded(s, i) ==> Used(r.slots[k]))
  {
    MakeRoomKeepsValid(s, weight, limit);
    EvictOneKeepsRing(s);
    EvictOneKeepsValid(s);
    k := i;
    if s.used + weight > limit && |s.entries| > 0 {
      k := EvictOneClogged(s, i);
      var t := EvictOne(s).0;
      if EvictOne(s).1 {
        var m := EvictOneClogged(t, k);
        assert MakeRoom(t, weight, limit).0 == t || MakeRoom(t, weight, limit).0 == EvictOne(t).0;
        k := if MakeRoom(t, weight, limit).0 == t then k else m;
      }
    }
  }

  /** A new key in a full ring is left without a slot. */
  lemma NewKeyLeftOut(room: Shard, key: string, e: Entry, i: nat)
    requires Valid(room) && Clogged(room, i) && Used(room.slots[i])
    requires key != "" && key !in room.entries && key != Key(0)
    ensures RingOk(room)
    ensures var r := AddToClock(Insert(room, key, e), key, e.weight);
            && Clogged(r, i) && Used(r.slots[i]) && r.entries == room.entries[key := e]
            && UnslottedBytes(r) == UnslottedBytes(room) + e.size
  {
    CloggedFull(room, i);
    var put := Insert(room, key, e);
    EmptyFoundIff(put.slots, put.hand);
    var r := AddToClock(put, key, e.weight);
    assert !HasSlot(r.slots, key);
    assert Unslotted(r) == Unslotted(room)[key := e];
    TotalAdd(Unslotted(room), SizeOf, key, e);
  }

  /** A new key that finds the one slot empty takes it, marked. */
  lemma NewKeyShielded(room: Shard, key: string, e: Entry, i: nat)
    requires Valid(room) && Clogged(room, i) && !Used(room.slots[i]) && Key(0) !in room.entries
    requires key != "" && key !in room.entries && key != Key(0)
    ensures RingOk(room)
    ensures var r := AddToClock(Insert(room, key, e), key, e.weight);
            && Shielded(r, i) && r.entries == room.entries[key := e]
            && UnslottedBytes(r) == UnslottedBytes(room)
  {
    CloggedFull(room, i);
    var put := Insert(room, key, e);
    EmptyFoundIff(put.slots, put.hand);
    var r := AddToClock(put, key, e.weight);
    assert r.slots[i] == Slot(key, true, e.weight);
    assert HasSlot(r.slots, key);
    assert forall j :: 0 <= j < |room.slots| && j != i ==> r.slots[j] == room.slots[j];
    assert forall k :: k in room.entries ==> !HasSlot(r.slots, k) && !HasSlot(room.slots, k);
    assert Unslotted(r) == Unslotted(room);
  }

  // ---------------------------------------------------------------- growth

  /** A Set of a new key leaves it without a slot, or takes the one slot, and is then protected; not twice in a row. */
  lemma GrowClogged(c: Limits, t: Track, n: nat, i: nat) returns (k: nat)
    requires Sane(c) && Valid(t.s) && Clogged(t.s, i) && KeysShorter(t.s, n) && n > 0
    ensures var r := Step(c, t, DoSet(Key(n), Zeros(c.maxPayload), 0));
            && Clogged(r.s, k) && KeysShorter(r.s, n + 1)
            && (UnslottedBytes(r.s) == UnslottedBytes(t.s) + c.maxPayload
                || (!Shielded(t.s, i) && Shielded(r.s, k) && UnslottedBytes(r.s) == UnslottedBytes(t.s)))
  {
    var key, e := Key(n), NewEntry(Zeros(c.maxPayload), 0);
    var room := MakeRoom(t.s, e.weight, c.limit).0;
    MakeRoomKeepsValid(t.s, e.weight, c.limit);
    MakeRoomUnslotted(t.s, e.weight, c.limit);
    k := MakeRoomClogged(t.s, e.weight, c.limit, i);
    assert key !in room.entries && key != Key(0);
    if Used(room.slots[k]) {
      NewKeyLeftOut(room, key, e, k);
    } else {
      NewKeyShielded(room, key, e, k);
    }
  }

  lemma FillUp(c: Limits, t: Track, n: nat, i: nat, bound: nat) returns (ops: seq<Op>)
    requires Sane(c) && Valid(t.s) && Clogged(t.s, i) && KeysShorter(t.s, n) && n > 0
    ensures UnslottedBytes(Exec(c, t, ops).s) > bound && Permitted(OVERWRITES, c, t, ops)
    decreases bound - UnslottedBytes(t.s), if Shielded(t.s, i) then 0 else 1
  {
    if UnslottedBytes(t.s) > bound {
      ops := [];
    } else {
      var op := DoSet(Key(n), Zeros(c.maxPayload), 0);
      var k := GrowClogged(c, t, n, i);
      StepKeepsValid(c, t, op);
      var rest := FillUp(c, Step(c, t, op), n + 1, k, bound);
      assert ([op] + rest)[1..] == rest;
      ops := [op] + rest;
    }
  }

  /**
   No bound holds for all runs that may set stored keys either, even without a single Delete.  A limit of
   one byte, in which no second entry ever finds room, is left aside.
   */
  lemma OverwritesAreUnbounded(c: Limits, capacity: nat, bound: nat) returns (ops: seq<Op>)
    requires Sane(c) && c.limit > 1 && capacity > 0
    ensures Valid(Start(capacity).s)
    ensures Exec(c, Start(capacity), ops).s.used > bound && Permitted(OVERWRITES, c, Start(capacity), ops)
  {
    StartInv(c, capacity);
    var fill := FillRing(c, Start(capacity));
    var t := Exec(c, Start(capacity), fill);
    OccupiedFull(t.s.slots);
    var grow := FillUp(c, t, 1, 0, bound);
    ExecConcat(c, Start(capacity), fill, grow);
    PermittedConcat(OVERWRITES, c, Start(capacity), fill, grow);
    ops := fill + grow;
    UnslottedWithin(Exec(c, t, grow).s);
  }

  lemma UnslottedWithin(s: Shard)
    requires Valid(s)
    ensures UnslottedBytes(s) <= s.used
  {
    TwoParts(s);
    TotalOfUnion(Unslotted(s), Slotted(s), SizeOf);
  }

  // ---------------------------------------------------------------- exactly which runs are bounded

  ghost predicate BoundedBy(r: Repertoire, c: Limits, capacity: nat, bound: nat)
    requires capacity > 0 && Valid(Start(capacity).s)
  {
    forall ops :: Permitted(r, c, Start(capacity), ops) ==> Exec(c, Start(capacity), ops).s.used <= bound
  }

  lemma {:induction false} PermittedMore(r: Repertoire, r': Repertoire, c: Limits, t: Track, ops: seq<Op>)
    requires Valid(t.s) && Permitted(r, c, t, ops)
    requires (r.deletes ==> r'.deletes) && (r.overwrites ==> r'.overwrites)
    ensures Permitted(r', c, t, ops)
    decreases ops
  {
    if ops != [] {
      StepKeepsValid(c, t, ops[0]);
      PermittedMore(r, r', c, Step(c, t, ops[0]), ops[1..]);
    }
  }

  /** A shard's memory is bounded over all runs of a kind exactly when they neither delete nor set stored keys. */
  lemma BoundedIff(r: Repertoire, c: Limits, capacity: nat)
    requires Sane(c) && c.limit > 1 && capacity >= 3
    ensures Valid(Start(capacity).s)
    ensures (exists bound: nat :: BoundedBy(r, c, capacity, bound)) <==> !r.deletes && !r.overwrites
  {
    StartInv(c, capacity);
    if !r.deletes && !r.overwrites {
      forall ops | Permitted(r, c, Start(capacity), ops) ensures Exec(c, Start(capacity), ops).s.used <= FreshBound(c, capacity) {
        FreshRunsAreBounded(c, capacity, ops);
      }
      assert BoundedBy(r, c, capacity, FreshBound(c, capacity));
    } else {
      forall bound: nat ensures !BoundedBy(r, c, capacity, bound) {
        var ops := Unbounded(r, c, capacity, bound);
      }
    }
  }

  lemma Unbounded(r: Repertoire, c: Limits, capacity: nat, bound: nat) returns (ops: seq<Op>)
    requires Sane(c) && c.limit > 1 && capacity > 0 && (r.deletes || r.overwrites)
    ensures Valid(Start(capacity).s)
    ensures Permitted(r, c, Start(capacity), ops) && Exec(c, Start(capacity), ops).s.used > bound
  {
    if r.deletes {
      ops := DeletesAreUnbounded(c, capacity, bound);
      PermittedMore(DELETES, r, c, Start(capacity), ops);
    } else {
      ops := OverwritesAreUnbounded(c, capacity, bound);
      PermittedMore(OVERWRITES, r, c, Start(capacity), ops);
    }
  }
}
