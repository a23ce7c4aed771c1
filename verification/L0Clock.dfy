/**
 The clock of a shard across operations (pkg/l0/l0_cache.go:403-464): which slot an eviction frees and where
 it leaves the hand, whom the next one takes, and which slot the next key gets.
 */
module L0Clock {
  import opened Bytes
  import opened ClockRing
  import opened L0Spec

  /** Slot `i` names a stored key whose reference bit is clear. */
  predicate Clear(s: Shard, i: nat)
    requires i < |s.slots|
  {
    s.slots[i].key != "" && !s.slots[i].reference && s.slots[i].key in s.entries
  }

  /** How many slots of `[0, n)` a pass from the hand looks at before it gets to slot `i`. */
  function Ahead(hand: nat, n: nat, i: nat): nat
    requires n > 0
  {
    (i - hand) % n
  }

  /** Of the scanned slots with a clear bit and a stored key, the one that the hand comes to first. */
  predicate FirstClear(s: Shard, j: nat) {
    && j < s.freqSize <= |s.slots| && Clear(s, j)
    && forall i :: 0 <= i < s.freqSize && Clear(s, i) ==> Ahead(s.hand, s.freqSize, j) <= Ahead(s.hand, s.freqSize, i)
  }

  /** A pass that looked at the slots before `j` in rotation left their bits clear, and all else alone. */
  predicate PassedBy(s: Shard, r: Shard, j: nat) {
    && |r.slots| == |s.slots| && 0 < s.freqSize
    && forall i :: 0 <= i < |s.slots| && i != j ==>
         r.slots[i] == if i < s.freqSize && Ahead(s.hand, s.freqSize, i) < Ahead(s.hand, s.freqSize, j) && s.slots[i].key != ""
                       then Slot(s.slots[i].key, false, s.slots[i].weight) else s.slots[i]
  }

  lemma VictimIsFirst(s: Shard, v: nat)
    requires RingOk(s) && 0 < s.freqSize && v == FirstVictim(s.slots, s.entries.Keys, s.hand, s.freqSize, 0) < s.freqSize
    ensures FirstClear(s, Visit(s.hand, s.freqSize, v)) && Ahead(s.hand, s.freqSize, Visit(s.hand, s.freqSize, v)) == v
  {
    var j := Visit(s.hand, s.freqSize, v);
    VisitedOnce(s.hand, s.freqSize, v, j);
    forall i | 0 <= i < s.freqSize && Clear(s, i) ensures v <= Ahead(s.hand, s.freqSize, i) {
      VisitedOnce(s.hand, s.freqSize, Turn(s.hand, s.freqSize, i), i);
    }
  }

  /**
   An eviction frees the slot of the first unreferenced stored key in rotation, takes that key and its counts,
   clears the bits it passed, and leaves the hand on the slot just after.
   */
  lemma EvictionFreesFirstClear(s: Shard) returns (j: nat)
    requires Valid(s) && EvictOne(s).1
    ensures FirstClear(s, j) && PassedBy(s, EvictOne(s).0, j)
    ensures var r, key := EvictOne(s).0, s.slots[j].key;
            && r.entries == s.entries - {key} && r.slots[j].key == ""
            && r.used + s.entries[key].size == s.used && r.weight + s.entries[key].weight == s.weight
            && r.hand == (j + 1) % |s.slots| && r.freqSize + 1 == s.freqSize && r.evicts == s.evicts + 1
  {
    var v := FirstVictim(s.slots, s.entries.Keys, s.hand, s.freqSize, 0);
    j := Visit(s.hand, s.freqSize, v);
    VictimIsFirst(s, v);
    WithoutKeepsCounters(s, s.slots[j].key);
  }

  /** A pass that evicts nothing clears every bit it scans and moves nothing. */
  lemma FruitlessPassClears(s: Shard)
    requires RingOk(s) && !EvictOne(s).1
    ensures EvictOne(s).0 == s.(slots := EvictOne(s).0.slots) && |EvictOne(s).0.slots| == |s.slots|
    ensures forall i :: 0 <= i < |s.slots| ==>
              EvictOne(s).0.slots[i] == if i < s.freqSize && s.slots[i].key != "" then Slot(s.slots[i].key, false, s.slots[i].weight)
                                        else s.slots[i]
  {
  }

  /** The second of two evictions takes the first unreferenced stored key in rotation from just past the first. */
  lemma NextEviction(s: Shard) returns (j: nat, k: nat)
    requires Valid(s) && EvictOne(s).1 && Valid(EvictOne(s).0) && EvictOne(EvictOne(s).0).1
    ensures FirstClear(s, j) && FirstClear(EvictOne(s).0, k)
    ensures EvictOne(EvictOne(s).0).0.entries == s.entries - {s.slots[j].key} - {s.slots[k].key}
    ensures forall i :: 0 <= i < s.freqSize - 1 && Clear(EvictOne(s).0, i) ==>
              (k - (j + 1) % |s.slots|) % (s.freqSize - 1) <= (i - (j + 1) % |s.slots|) % (s.freqSize - 1)
    ensures forall i :: j < i < s.freqSize - 1 && Clear(EvictOne(s).0, i) ==> j < k <= i
  {
    var r := EvictOne(s).0;
    j := EvictionFreesFirstClear(s);
    k := EvictionFreesFirstClear(r);
    EvictionKeepsKeys(s, r, j);
    FirstFromHere(r, j, k);
  }

  lemma FirstFromHere(r: Shard, j: nat, k: nat)
    requires FirstClear(r, k) && j < |r.slots| && r.hand == (j + 1) % |r.slots|
    ensures forall i :: j < i < r.freqSize && Clear(r, i) ==> j < k <= i
  {
    forall i | j < i < r.freqSize && Clear(r, i) ensures j < k <= i {
      JustPast(j, r.freqSize, |r.slots|, i);
      JustPastOnly(j, r.freqSize, |r.slots|, i, k);
    }
  }

  lemma JustPast(j: nat, n: nat, capacity: nat, i: nat)
    requires j < i < n <= capacity
    ensures Ahead((j + 1) % capacity, n, i) == i - (j + 1)
  {
    DivModUnique(j + 1, capacity, 0, j + 1);
    DivModUnique(i - (j + 1), n, 0, i - (j + 1));
  }

  lemma JustPastOnly(j: nat, n: nat, capacity: nat, i: nat, k: nat)
    requires j < i < n <= capacity && k < n && Ahead((j + 1) % capacity, n, k) <= i - (j + 1)
    ensures j < k <= i
  {
    var hand := (j + 1) % capacity;
    assert hand == j + 1;
    if k <= j {
      DivModUnique(k - hand, n, -1, n + k - hand);
    } else {
      DivModUnique(k - hand, n, 0, k - hand);
    }
  }

  /** A new key takes the first empty slot from the hand, its bit set; a full ring leaves it out and moves the hand one on. */
  lemma KeyTakesFirstEmpty(s: Shard, key: string, weight: nat)
    requires RingOk(s)
    ensures var r := AddToClock(s, key, weight);
            && r == s.(slots := r.slots, hand := r.hand, freqSize := r.freqSize)
            && (Occupied(s.slots) == |s.slots| ==> r == s.(hand := (s.hand + 1) % |s.slots|))
            && (Occupied(s.slots) < |s.slots| ==>
                  exists j :: 0 <= j < |s.slots| && s.slots[j].key == ""
                              && r == s.(slots := s.slots[j := Slot(key, true, weight)], freqSize := s.freqSize + 1)
                              && forall i :: 0 <= i < |s.slots| && s.slots[i].key == "" ==>
                                   Ahead(s.hand, |s.slots|, j) <= Ahead(s.hand, |s.slots|, i))
  {
    EmptyFoundIff(s.slots, s.hand);
    var e := FirstEmpty(s.slots, s.hand, 0);
    if e < |s.slots| {
      var j := Visit(s.hand, |s.slots|, e);
      VisitedOnce(s.hand, |s.slots|, e, j);
      forall i | 0 <= i < |s.slots| && s.slots[i].key == "" ensures Ahead(s.hand, |s.slots|, j) <= Ahead(s.hand, |s.slots|, i) {
        VisitedOnce(s.hand, |s.slots|, Turn(s.hand, |s.slots|, i), i);
      }
    }
  }

  /** Seen from the slot after `j`, every other slot comes before it. */
  lemma AllComeBefore(j: nat, n: nat, i: nat)
    requires j < n && i < n
    ensures Ahead((j + 1) % n, n, j) == n - 1
    ensures i != j ==> Ahead((j + 1) % n, n, i) < n - 1
  {
    JustBehind(j, n);
    var hand := (j + 1) % n;
    VisitedOnce(hand, n, Turn(hand, n, i), i);
    VisitedOnce(hand, n, n - 1, j);
  }

  lemma EvictionKeepsKeys(s: Shard, r: Shard, j: nat)
    requires PassedBy(s, r, j)
    ensures forall i :: 0 <= i < |s.slots| && i != j ==> r.slots[i].key == s.slots[i].key
  {
  }

  /** With the hand just past an empty slot, a new key gets that slot only if there is no other. */
  lemma LastResort(r: Shard, key: string, weight: nat, j: nat)
    requires RingOk(r) && key != "" && j < |r.slots| && r.slots[j].key == "" && r.hand == (j + 1) % |r.slots|
    ensures AddToClock(r, key, weight).slots[j].key == key <==>
            forall i :: 0 <= i < |r.slots| && i != j ==> r.slots[i].key != ""
  {
    KeyTakesFirstEmpty(r, key, weight);
    OccupiedFull(r.slots);
    forall i | 0 <= i < |r.slots|
      ensures Ahead(r.hand, |r.slots|, j) == |r.slots| - 1 && (i != j ==> Ahead(r.hand, |r.slots|, i) < |r.slots| - 1)
    {
      AllComeBefore(j, |r.slots|, i);
    }
  }

  /** The slot that an eviction has just freed is the last one the next new key comes to: it gets it only in a full ring. */
  lemma FreedSlotComesLast(s: Shard, key: string, weight: nat, j: nat)
    requires Valid(s) && EvictOne(s).1 && FirstClear(s, j) && key != ""
    ensures RingOk(EvictOne(s).0)
    ensures AddToClock(EvictOne(s).0, key, weight).slots[j].key == key <==> s.freqSize == |s.slots|
  {
    EvictOneKeepsRing(s);
    var freed := EvictionFreesFirstClear(s);
    OneFirstClear(s, j, freed);
    EvictionKeepsKeys(s, EvictOne(s).0, j);
    LastResort(EvictOne(s).0, key, weight, j);
    OccupiedFull(s.slots);
  }

  lemma JustBehind(j: nat, n: nat)
    requires j < n
    ensures Ahead((j + 1) % n, n, j) == n - 1
  {
    if j + 1 < n {
      DivModUnique(-1, n, -1, n - 1);
    } else {
      DivModUnique(j, n, 0, n - 1);
    }
  }

  lemma OneFirstClear(s: Shard, i: nat, j: nat)
    requires FirstClear(s, i) && FirstClear(s, j)
    ensures i == j
  {
    VisitedOnce(s.hand, s.freqSize, Turn(s.hand, s.freqSize, i), i);
    VisitedOnce(s.hand, s.freqSize, Turn(s.hand, s.freqSize, j), j);
  }

  /** Room is made no further than needed: putting the last key evicted back would be too much again. */
  lemma {:induction false} NoEvictionTooMany(s: Shard, weight: nat, limit: nat)
    requires Valid(s)
    ensures var r := MakeRoom(s, weight, limit).0;
            r.entries == s.entries || exists k :: k in s.entries && k !in r.entries && r.used + s.entries[k].size + weight > limit
    decreases |s.entries|
  {
    EvictOneKeepsValid(s);
    EvictOneKeepsRing(s);
    if s.used + weight > limit && |s.entries| > 0 && EvictOne(s).1 {
      var j := EvictionFreesFirstClear(s);
      var t, key := EvictOne(s).0, s.slots[j].key;
      NoEvictionTooMany(t, weight, limit);
      var r := MakeRoom(t, weight, limit).0;
      MakeRoomKeepsValid(t, weight, limit);
      if k :| k in t.entries && k !in r.entries && r.used + t.entries[k].size + weight > limit {
        assert k in s.entries;
      } else {
        MakeRoomUnchanged(t, weight, limit);
        assert key in s.entries && key !in r.entries;
      }
    }
  }

  /** What has not evicted anything has changed reference bits at most. */
  lemma {:induction false} MakeRoomUnchanged(s: Shard, weight: nat, limit: nat)
    requires Valid(s)
    ensures var r := MakeRoom(s, weight, limit).0;
            r.entries == s.entries ==> r == s.(slots := r.slots)
    decreases |s.entries|
  {
    EvictOneKeepsRing(s);
    EvictOneKeepsValid(s);
    if s.used + weight > limit && |s.entries| > 0 {
      if EvictOne(s).1 {
        var j := EvictionFreesFirstClear(s);
        MakeRoomKeepsValid(EvictOne(s).0, weight, limit);
        assert s.slots[j].key in s.entries && s.slots[j].key !in MakeRoom(EvictOne(s).0, weight, limit).0.entries;
      } else {
        FruitlessPassClears(s);
      }
    }
  }

  // ---------------------------------------------------------------- removal

  /** Delete leaves the ring alone, so a slot naming the key is stale from then on. */
  lemma DeleteLeavesRing(s: Shard, key: string)
    requires Valid(s)
    ensures var r := Delete(s, key);
            && r.entries == s.entries - {key} && r.slots == s.slots && r.hand == s.hand && r.freqSize == s.freqSize
            && r.evicts == s.evicts
            && (key in s.entries ==> r.used + s.entries[key].size == s.used && r.weight + s.entries[key].weight == s.weight)
  {
    if key in s.entries {
      WithoutKeepsCounters(s, key);
    } else {
      assert s.entries - {key} == s.entries;
    }
  }

  /** Demote empties the lowest slot naming a stored key, if there is one, and the hand stays. */
  lemma DemoteClearsLowest(s: Shard, key: string, j: nat)
    requires Valid(s) && key in s.entries && j < |s.slots|
    ensures var r := Demote(s, key);
            && r.entries == s.entries - {key} && r.hand == s.hand && r.evicts == s.evicts && |r.slots| == |s.slots|
            && ((s.slots[j].key == key && forall i :: 0 <= i < j ==> s.slots[i].key != key) ==> r.slots[j].key == "")
            && (!(s.slots[j].key == key && forall i :: 0 <= i < j ==> s.slots[i].key != key) ==> r.slots[j] == s.slots[j])
            && r.freqSize == s.freqSize - (if HasSlot(s.slots, key) then 1 else 0)
            && r.used + s.entries[key].size == s.used && r.weight + s.entries[key].weight == s.weight
  {
    WithoutKeepsCounters(s, key);
    var i := SlotOf(s.slots, key, 0);
    if i < |s.slots| {
      SlotOfUsed(s.slots, i);
    }
  }
}
