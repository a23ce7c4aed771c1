/**
 A shard's memory in runs that neither delete keys nor set stored ones (pkg/l0/l0_cache.go:208-235,
 403-464, 568-592): however often eviction gives up, it stays within a fixed bound.

 In such a run every used slot names a stored key, and each a different one.  A pass that gives up has
 just stripped every slot of its range, so the next one that gives up finds at most two used slots
 there; all the others lie beyond freqSize, which must then be small.  So the ring has room, and no
 further key is left without a slot.
 */
module L0Fresh {
  import opened Bytes
  import opened Payloads
  import opened Totals
  import opened ClockRing
  import opened L0Spec
  import opened L0Runs
  import opened L0Memory

  const FRESH := Repertoire(false, false)

  // ---------------------------------------------------------------- counting slots

  predicate Marked(x: Slot) {
    Used(x) && x.reference
  }

  function Marks(slots: seq<Slot>): nat {
    if slots == [] then 0
    else Marks(slots[..|slots| - 1]) + (if Marked(slots[|slots| - 1]) then 1 else 0)
  }

  lemma {:induction false} FewerMarks(s: seq<Slot>, t: seq<Slot>)
    requires |s| == |t| && forall j :: 0 <= j < |s| && Marked(t[j]) ==> Marked(s[j])
    ensures Marks(t) <= Marks(s)
  {
    if s != [] {
      FewerMarks(s[..|s| - 1], t[..|t| - 1]);
    }
  }

  lemma {:induction false} NoMarks(s: seq<Slot>)
    requires forall j :: 0 <= j < |s| ==> !Marked(s[j])
    ensures Marks(s) == 0
  {
    if s != [] {
      NoMarks(s[..|s| - 1]);
    }
  }

  lemma {:induction false} AllMarked(s: seq<Slot>)
    requires forall j :: 0 <= j < |s| && Used(s[j]) ==> s[j].reference
    ensures Occupied(s) <= Marks(s)
  {
    if s != [] {
      AllMarked(s[..|s| - 1]);
    }
  }

  lemma {:induction false} OneMoreMark(s: seq<Slot>, j: nat, x: Slot)
    requires j < |s|
    ensures Marks(s[j := x]) <= Marks(s) + 1
  {
    var n := |s| - 1;
    if j == n {
      assert s[j := x][..n] == s[..n];
    } else {
      assert s[j := x][..n] == s[..n][j := x];
      OneMoreMark(s[..n], j, x);
    }
  }

  lemma PrefixMarks(s: seq<Slot>, n: nat)
    requires n < |s|
    ensures Marks(s[..n]) <= Marks(s[..n + 1]) <= Marks(s[..n]) + 1
  {
    assert s[..n + 1][..n] == s[..n];
  }

  lemma RangeMarks(s: seq<Slot>, t: seq<Slot>, n: nat, m: nat)
    requires |s| == |t| && m <= n <= |s| && n <= m + 1
    requires forall j :: 0 <= j < |s| && Marked(t[j]) ==> Marked(s[j])
    ensures Marks(t[..m]) <= Marks(s[..n])
  {
    FewerMarks(s[..n], t[..n]);
    if m < n {
      PrefixMarks(t, m);
    }
  }

  /** What lies beyond the range fits in what the range leaves of the ring. */
  lemma {:induction false} OccupiedBeyond(s: seq<Slot>, n: nat)
    requires n <= |s|
    ensures Occupied(s) <= Occupied(s[..n]) + (|s| - n)
  {
    if n == |s| {
      assert s[..n] == s;
    } else {
      OccupiedBeyond(s[..|s| - 1], n);
      assert s[..|s| - 1][..n] == s[..n];
    }
  }

  /** The marks that the next pass would meet. */
  function MarksAhead(s: Shard): nat
    requires RingOk(s)
  {
    Marks(s.slots[..s.freqSize])
  }

  // ---------------------------------------------------------------- a ring that tells the truth

  /** Every used slot names a stored key, and each a different one. */
  predicate Truthful(s: Shard) {
    && (forall j :: 0 <= j < |s.slots| && Used(s.slots[j]) ==> s.slots[j].key in s.entries)
    && forall i, j :: 0 <= i < j < |s.slots| && Used(s.slots[i]) && Used(s.slots[j]) ==> s.slots[i].key != s.slots[j].key
  }

  lemma EvictOneKeepsTruth(s: Shard)
    requires Valid(s) && Truthful(s)
    ensures Truthful(EvictOne(s).0)
  {
  }

  /** A pass adds no marks, and its range only shrinks. */
  lemma EvictOneMarks(s: Shard)
    requires Valid(s) && Valid(EvictOne(s).0)
    ensures MarksAhead(EvictOne(s).0) <= MarksAhead(s)
  {
    var t := EvictOne(s).0;
    assert forall j :: 0 <= j < |s.slots| && Marked(t.slots[j]) ==> Marked(s.slots[j]);
    RangeMarks(s.slots, t.slots, s.freqSize, t.freqSize);
  }

  /** If it evicts nothing, all that its range holds was marked. */
  lemma FruitlessPass(s: Shard)
    requires Valid(s) && Truthful(s) && !EvictOne(s).1
    ensures Occupied(s.slots[..s.freqSize]) <= MarksAhead(s)
  {
    EvictOneEvictsIff(s);
    forall j | 0 <= j < s.freqSize && Used(s.slots[j]) ensures s.slots[j].reference {
      assert !Evictable(s.slots, s.entries.Keys, j);
    }
    AllMarked(s.slots[..s.freqSize]);
  }

  lemma {:induction false} MakeRoomKeepsTruth(s: Shard, weight: nat, limit: nat)
    requires Valid(s) && Truthful(s)
    ensures Truthful(MakeRoom(s, weight, limit).0)
    decreases |s.entries|
  {
    EvictOneKeepsRing(s);
    EvictOneKeepsValid(s);
    EvictOneKeepsTruth(s);
    if s.used + weight > limit && |s.entries| > 0 && EvictOne(s).1 {
      MakeRoomKeepsTruth(EvictOne(s).0, weight, limit);
    }
  }

  /** Giving up leaves a range with no more used slots than there were marks ahead, and none marked. */
  lemma {:induction false} GaveUpFewUsed(s: Shard, weight: nat, limit: nat)
    requires Valid(s) && Truthful(s) && MakeRoom(s, weight, limit).1
    ensures var r := MakeRoom(s, weight, limit).0;
            && Valid(r) && |r.slots| == |s.slots|
            && Occupied(r.slots[..r.freqSize]) <= MarksAhead(s)
    decreases |s.entries|
  {
    EvictOneKeepsRing(s);
    EvictOneKeepsValid(s);
    EvictOneKeepsTruth(s);
    var t := EvictOne(s).0;
    if EvictOne(s).1 {
      EvictOneMarks(s);
      GaveUpFewUsed(t, weight, limit);
    } else {
      FruitlessPass(s);
      OccupiedByKeys(t.slots[..t.freqSize], s.slots[..s.freqSize]);
    }
  }

  lemma GaveUpNoMarks(s: Shard, weight: nat, limit: nat)
    requires Valid(s) && MakeRoom(s, weight, limit).1
    ensures var r := MakeRoom(s, weight, limit).0; RingOk(r) && MarksAhead(r) == 0
  {
    GaveUpStripped(s, weight, limit);
    var r := MakeRoom(s, weight, limit).0;
    NoMarks(r.slots[..r.freqSize]);
  }

  /** So more than half of the ring is free as soon as few marks were ahead. */
  lemma GaveUpHalfFree(s: Shard, weight: nat, limit: nat)
    requires Valid(s) && Truthful(s) && MakeRoom(s, weight, limit).1
    ensures var r := MakeRoom(s, weight, limit).0;
            |r.slots| == |s.slots| && 2 * r.freqSize <= |s.slots| + MarksAhead(s)
  {
    GaveUpFewUsed(s, weight, limit);
    var r := MakeRoom(s, weight, limit).0;
    OccupiedBeyond(r.slots, r.freqSize);
  }

  // ---------------------------------------------------------------- keys without a slot

  function Unslotted(s: Shard): map<string, Entry> {
    map k | k in s.entries && !HasSlot(s.slots, k) :: s.entries[k]
  }

  function Slotted(s: Shard): map<string, Entry> {
    map k | k in s.entries && HasSlot(s.slots, k) :: s.entries[k]
  }

  ghost function UnslottedBytes(s: Shard): nat {
    Total(Unslotted(s), SizeOf)
  }

  lemma EvictOneUnslotted(s: Shard)
    requires Valid(s)
    ensures Unslotted(EvictOne(s).0) == Unslotted(s)
  {
    EvictOneSlots(s);
    var t := EvictOne(s).0;
    forall k | k in s.entries ensures k in Unslotted(t) <==> k in Unslotted(s) {
      EvictOneOthers(s, k);
    }
  }

  /** A key that stays stored stays as slotted as it was; one that goes had a slot. */
  lemma EvictOneOthers(s: Shard, k: string)
    requires Valid(s) && k in s.entries
    ensures var t := EvictOne(s).0;
            && (k in t.entries ==> t.entries[k] == s.entries[k] && (HasSlot(t.slots, k) <==> HasSlot(s.slots, k)))
            && (k !in t.entries ==> HasSlot(s.slots, k))
  {
    var t := EvictOne(s).0;
    EvictOneSlots(s);
    if s.freqSize > 0 {
      var v := FirstVictim(s.slots, s.entries.Keys, s.hand, s.freqSize, 0);
      if v < s.freqSize {
        var j := Visit(s.hand, s.freqSize, v);
        assert HasSlot(s.slots, s.slots[j].key);
      }
    }
    if i :| 0 <= i < |t.slots| && t.slots[i].key == k {
      assert s.slots[i].key == k;
    }
  }

  lemma {:induction false} MakeRoomUnslotted(s: Shard, weight: nat, limit: nat)
    requires Valid(s)
    ensures Unslotted(MakeRoom(s, weight, limit).0) == Unslotted(s)
    decreases |s.entries|
  {
    EvictOneKeepsRing(s);
    EvictOneKeepsValid(s);
    EvictOneUnslotted(s);
    if s.used + weight > limit && |s.entries| > 0 && EvictOne(s).1 {
      MakeRoomUnslotted(EvictOne(s).0, weight, limit);
    }
  }

  /** The keys that some slot names are no more than the used slots. */
  function NamesIn(slots: seq<Slot>): set<string> {
    set j | 0 <= j < |slots| && Used(slots[j]) :: slots[j].key
  }

  lemma {:induction false} FewNames(slots: seq<Slot>)
    ensures |NamesIn(slots)| <= Occupied(slots)
  {
    if slots == [] {
      assert NamesIn(slots) == {};
    } else {
      var front, last := slots[..|slots| - 1], slots[|slots| - 1];
      FewNames(front);
      assert NamesIn(slots) == NamesIn(front) + if Used(last) then {last.key} else {};
    }
  }

  lemma SlottedAreFew(s: Shard)
    requires Valid(s)
    ensures |Slotted(s)| <= s.freqSize
  {
    FewNames(s.slots);
    forall k | k in Slotted(s) ensures k in NamesIn(s.slots) {
      var j :| 0 <= j < |s.slots| && s.slots[j].key == k;
      assert Used(s.slots[j]);
    }
    FewerThan(Slotted(s).Keys, NamesIn(s.slots));
  }

  lemma FewerThan(a: set<string>, b: set<string>)
    requires a <= b
    ensures |a| <= |b|
  {
    assert b == a + (b - a);
  }

  lemma OneMore(n: nat, most: nat)
    requires n > 0
    ensures n * most == (n - 1) * most + most
  {
  }

  lemma {:induction false} TotalAtMost(m: map<string, Entry>, most: nat)
    requires forall k :: k in m ==> m[k].size <= most
    ensures Total(m, SizeOf) <= |m| * most
    decreases |m|
  {
    if m != map[] {
      var k := Pick(m);
      var rest := m - {k};
      RemoveKey(m, k);
      TotalAtMost(rest, most);
      OneMore(|m|, most);
    }
  }

  lemma Product(a: nat, b: nat, m: nat)
    requires a <= b
    ensures a * m <= b * m
  {
  }

  predicate SizesWithin(s: Shard, most: nat) {
    forall k :: k in s.entries ==> s.entries[k].size <= most
  }

  lemma TwoParts(s: Shard)
    ensures s.entries == Unslotted(s) + Slotted(s) && Unslotted(s).Keys !! Slotted(s).Keys
  {
  }

  /** A shard holds its unslotted bytes and at most a payload per used slot. */
  lemma UsedBySlots(s: Shard, most: nat)
    requires Valid(s) && SizesWithin(s, most)
    ensures UnslottedBytes(s) <= s.used <= UnslottedBytes(s) + s.freqSize * most
  {
    TwoParts(s);
    TotalOfUnion(Unslotted(s), Slotted(s), SizeOf);
    SlottedAreFew(s);
    TotalAtMost(Slotted(s), most);
    Product(|Slotted(s)|, s.freqSize, most);
  }

  // ---------------------------------------------------------------- inserting a new key

  lemma NewKeyTruth(room: Shard, key: string, e: Entry)
    requires Valid(room) && Truthful(room) && key != "" && key !in room.entries
    ensures Truthful(AddToClock(Insert(room, key, e), key, e.weight))
  {
    assert Insert(room, key, e).entries.Keys == room.entries.Keys + {key};
  }

  /** A ring with room gives the new key a slot, and changes nobody else's. */
  lemma NewKeySlotted(room: Shard, key: string, e: Entry)
    requires Valid(room) && Truthful(room) && key != "" && key !in room.entries && room.freqSize < |room.slots|
    ensures var r := AddToClock(Insert(room, key, e), key, e.weight);
            && Unslotted(r) == Unslotted(room) && r.freqSize == room.freqSize + 1
  {
    var put := Insert(room, key, e);
    EmptyFoundIff(put.slots, put.hand);
    AddToClockSlots(put, key, e.weight);
    var r := AddToClock(put, key, e.weight);
    assert put.entries == room.entries[key := e];
    forall k | k in room.entries ensures HasSlot(r.slots, k) <==> HasSlot(room.slots, k) {
      if i :| 0 <= i < |r.slots| && r.slots[i].key == k {
        assert room.slots[i].key == k;
      }
      if i :| 0 <= i < |room.slots| && room.slots[i].key == k {
        assert r.slots[i].key == k;
      }
    }
    assert key in r.entries && HasSlot(r.slots, key);
  }

  /** After a pass that gave up, a new key brings at most two marks into the range: its own and the slot that joins. */
  lemma NewKeyMarks(room: Shard, key: string, e: Entry)
    requires Valid(room) && key != "" && MarksAhead(room) == 0
    ensures var r := AddToClock(Insert(room, key, e), key, e.weight); RingOk(r) && MarksAhead(r) <= 2
  {
    var put := Insert(room, key, e);
    AddToClockKeepsRing(put, key, e.weight);
    EmptyFoundIff(put.slots, put.hand);
    var r, n := AddToClock(put, key, e.weight), room.freqSize;
    if n < |room.slots| {
      var j := Visit(put.hand, |put.slots|, FirstEmpty(put.slots, put.hand, 0));
      PrefixMarks(room.slots, n);
      if j <= n {
        OneMoreMark(room.slots[..n + 1], j, Slot(key, true, e.weight));
        assert r.slots[..n + 1] == room.slots[..n + 1][j := Slot(key, true, e.weight)];
      } else {
        assert r.slots[..n + 1] == room.slots[..n + 1];
      }
    }
  }

  // ---------------------------------------------------------------- the invariant of such runs

  /** The ring is small or has just been given up on for the first time. */
  ghost predicate Settling(c: Limits, t: Track)
    requires RingOk(t.s)
  {
    && MarksAhead(t.s) <= 2
    && UnslottedBytes(t.s) <= CleanBound(c) + c.maxPayload
    && (t.gaveUps >= 2 ==> 2 * t.s.freqSize <= |t.s.slots| + 4)
  }

  ghost predicate FreshInv(c: Limits, t: Track) {
    && Inv(c, t) && Truthful(t.s) && SizesWithin(t.s, c.maxPayload) && |t.s.slots| >= 3
    && (t.gaveUps >= 1 ==> Settling(c, t))
  }

  lemma SetKeepsSizes(c: Limits, s: Shard, key: string, value: seq<Byte>, ttl: int)
    requires Valid(s) && SizesWithin(s, c.maxPayload) && Storable(c.maxPayload, key, value)
    ensures SizesWithin(Set(s, key, value, ttl, c.limit), c.maxPayload)
  {
    SetEntries(s, key, value, ttl, c.limit);
  }

  lemma SetKeepsTruth(s: Shard, key: string, value: seq<Byte>, ttl: int, limit: nat)
    requires Valid(s) && Truthful(s) && key != "" && key !in s.entries
    ensures Truthful(Set(s, key, value, ttl, limit))
  {
    var e := NewEntry(value, ttl);
    MakeRoomKeepsValid(s, e.weight, limit);
    MakeRoomKeepsTruth(s, e.weight, limit);
    NewKeyTruth(MakeRoom(s, e.weight, limit).0, key, e);
  }

  /** A Set that gives up in a shard already settling finds room in the ring. */
  lemma GaveUpAgain(c: Limits, t: Track, op: Op)
    requires Sane(c) && FreshInv(c, t) && t.gaveUps >= 1
    requires op.DoSet? && Storable(c.maxPayload, op.key, op.value) && op.key !in t.s.entries
    requires MakeRoom(t.s, Units(|op.value|), c.limit).1
    ensures var r := Step(c, t, op);
            && RingOk(r.s) && |r.s.slots| == |t.s.slots|
            && UnslottedBytes(r.s) == UnslottedBytes(t.s) && 2 * r.s.freqSize <= |t.s.slots| + 4
  {
    GaveUpStep(c, t, op);
    var e := NewEntry(op.value, op.ttl);
    var room := MakeRoom(t.s, e.weight, c.limit).0;
    MakeRoomKeepsValid(t.s, e.weight, c.limit);
    MakeRoomKeepsTruth(t.s, e.weight, c.limit);
    GaveUpHalfFree(t.s, e.weight, c.limit);
    MakeRoomUnslotted(t.s, e.weight, c.limit);
    NewKeySlotted(room, op.key, e);
    AddToClockKeepsRing(Insert(room, op.key, e), op.key, e.weight);
  }

  /** What Set does when it gives up, in the terms of the value. */
  lemma GaveUpStep(c: Limits, t: Track, op: Op)
    requires Valid(t.s) && op.DoSet? && Storable(c.maxPayload, op.key, op.value)
    requires MakeRoom(t.s, Units(|op.value|), c.limit).1
    ensures var e := NewEntry(op.value, op.ttl);
            && RingOk(MakeRoom(t.s, e.weight, c.limit).0)
            && Step(c, t, op).s == AddToClock(Insert(MakeRoom(t.s, e.weight, c.limit).0, op.key, e), op.key, e.weight)
            && Step(c, t, op).gaveUps == t.gaveUps + 1
  {
    MakeRoomKeepsRing(t.s, Units(|op.value|), c.limit);
  }

  lemma GaveUpMarks(c: Limits, t: Track, op: Op)
    requires Valid(t.s) && op.DoSet? && Storable(c.maxPayload, op.key, op.value)
    requires MakeRoom(t.s, Units(|op.value|), c.limit).1
    ensures RingOk(Step(c, t, op).s) && MarksAhead(Step(c, t, op).s) <= 2
  {
    var e := NewEntry(op.value, op.ttl);
    GaveUpStep(c, t, op);
    MakeRoomKeepsValid(t.s, e.weight, c.limit);
    GaveUpNoMarks(t.s, e.weight, c.limit);
    NewKeyMarks(MakeRoom(t.s, e.weight, c.limit).0, op.key, e);
  }

  lemma FirstGiveUpBytes(c: Limits, r: Track)
    requires Inv(c, r) && r.gaveUps == 1 && SizesWithin(r.s, c.maxPayload)
    ensures UnslottedBytes(r.s) <= CleanBound(c) + c.maxPayload
  {
    UsedBySlots(r.s, c.maxPayload);
  }

  lemma GaveUpBytes(c: Limits, t: Track, op: Op, r: Track)
    requires Sane(c) && FreshInv(c, t) && r == Step(c, t, op) && Inv(c, r) && SizesWithin(r.s, c.maxPayload)
    requires op.DoSet? && Storable(c.maxPayload, op.key, op.value) && op.key !in t.s.entries
    requires MakeRoom(t.s, Units(|op.value|), c.limit).1 && r.gaveUps == t.gaveUps + 1
    ensures UnslottedBytes(r.s) <= CleanBound(c) + c.maxPayload
    ensures r.gaveUps >= 2 ==> 2 * r.s.freqSize <= |r.s.slots| + 4
  {
    if t.gaveUps >= 1 {
      GaveUpAgain(c, t, op);
    } else {
      FirstGiveUpBytes(c, r);
    }
  }

  lemma SetKeepsFresh(c: Limits, t: Track, op: Op)
    requires Sane(c) && FreshInv(c, t)
    requires op.DoSet? && Storable(c.maxPayload, op.key, op.value) && op.key !in t.s.entries
    ensures FreshInv(c, Step(c, t, op))
  {
    StepKeepsInv(c, t, op);
    SetKeepsSizes(c, t.s, op.key, op.value, op.ttl);
    SetKeepsTruth(t.s, op.key, op.value, op.ttl, c.limit);
    SetKeepsCapacity(t.s, op.key, op.value, op.ttl, c.limit);
    if MakeRoom(t.s, Units(|op.value|), c.limit).1 {
      GaveUpStep(c, t, op);
      GaveUpMarks(c, t, op);
      GaveUpBytes(c, t, op, Step(c, t, op));
    }
  }

  lemma {:induction false} MakeRoomKeepsCapacity(s: Shard, weight: nat, limit: nat)
    requires RingOk(s)
    ensures |MakeRoom(s, weight, limit).0.slots| == |s.slots|
    decreases |s.entries|
  {
    EvictOneKeepsRing(s);
    if s.used + weight > limit && |s.entries| > 0 && EvictOne(s).1 {
      MakeRoomKeepsCapacity(EvictOne(s).0, weight, limit);
    }
  }

  lemma SetKeepsCapacity(s: Shard, key: string, value: seq<Byte>, ttl: int, limit: nat)
    requires RingOk(s)
    ensures |Set(s, key, value, ttl, limit).slots| == |s.slots|
  {
    MakeRoomKeepsCapacity(s, NewEntry(value, ttl).weight, limit);
  }

  // ---------------------------------------------------------------- Demote

  lemma DemoteKeepsTruth(s: Shard, key: string)
    requires Valid(s) && Truthful(s)
    ensures Truthful(Demote(s, key))
  {
  }

  lemma DemoteMarks(s: Shard, key: string)
    requires Valid(s) && Valid(Demote(s, key))
    ensures MarksAhead(Demote(s, key)) <= MarksAhead(s)
  {
    var t := Demote(s, key);
    assert forall j :: 0 <= j < |s.slots| && Marked(t.slots[j]) ==> Marked(s.slots[j]);
    RangeMarks(s.slots, t.slots, s.freqSize, t.freqSize);
  }

  lemma DemoteUnslotted(s: Shard, key: string)
    requires Valid(s)
    ensures SubMap(Unslotted(Demote(s, key)), Unslotted(s))
  {
    var t := Demote(s, key);
    forall k | k in t.entries && HasSlot(s.slots, k) ensures HasSlot(t.slots, k) {
      var j :| 0 <= j < |s.slots| && s.slots[j].key == k;
      assert t.slots[j].key == k;
    }
  }

  lemma DemoteKeepsSettling(c: Limits, t: Track, key: string, r: Track)
    requires Valid(t.s) && Valid(Demote(t.s, key)) && r == t.(s := Demote(t.s, key), demotions := r.demotions)
    requires Settling(c, t)
    ensures Settling(c, r)
  {
    DemoteMarks(t.s, key);
    DemoteUnslotted(t.s, key);
    TotalSubMap(Unslotted(r.s), Unslotted(t.s), SizeOf);
  }

  lemma DemoteKeepsFresh(c: Limits, t: Track, op: Op)
    requires Sane(c) && FreshInv(c, t) && op.DoDemote?
    ensures FreshInv(c, Step(c, t, op))
  {
    StepKeepsInv(c, t, op);
    DemoteKeepsTruth(t.s, op.key);
    if t.gaveUps >= 1 {
      DemoteKeepsSettling(c, t, op.key, Step(c, t, op));
    }
  }

  // ---------------------------------------------------------------- whole runs

  lemma StepKeepsFresh(c: Limits, t: Track, op: Op)
    requires Sane(c) && FreshInv(c, t) && Permits(FRESH, t.s, op)
    ensures FreshInv(c, Step(c, t, op))
  {
    if op.DoDemote? {
      DemoteKeepsFresh(c, t, op);
    } else if op.DoSet? && Storable(c.maxPayload, op.key, op.value) {
      SetKeepsFresh(c, t, op);
    }
  }

  lemma StartFresh(c: Limits, capacity: nat)
    requires Sane(c) && capacity >= 3
    ensures FreshInv(c, Start(capacity))
  {
    StartInv(c, capacity);
  }

  lemma {:induction false} RunKeepsFresh(c: Limits, t: Track, ops: seq<Op>)
    requires Sane(c) && FreshInv(c, t) && Permitted(FRESH, c, t, ops)
    ensures FreshInv(c, Exec(c, t, ops))
    decreases ops
  {
    if ops != [] {
      StepKeepsFresh(c, t, ops[0]);
      RunKeepsFresh(c, Step(c, t, ops[0]), ops[1..]);
    }
  }

  function FreshBound(c: Limits, capacity: nat): nat {
    CleanBound(c) + (capacity / 2 + 3) * c.maxPayload
  }

  lemma FewSlots(used: nat, unslotted: nat, clean: nat, slots: nat, half: nat, most: nat)
    requires used <= unslotted + slots * most && unslotted <= clean + most && slots <= half + 2
    ensures used <= clean + (half + 3) * most
  {
    Product(slots, half + 2, most);
    assert (half + 3) * most == (half + 2) * most + most;
  }

  lemma FreshUsed(c: Limits, t: Track)
    requires Sane(c) && FreshInv(c, t)
    ensures t.s.used <= FreshBound(c, |t.s.slots|)
  {
    var half := |t.s.slots| / 2;
    if t.gaveUps >= 2 {
      UsedBySlots(t.s, c.maxPayload);
      FewSlots(t.s.used, UnslottedBytes(t.s), CleanBound(c), t.s.freqSize, half, c.maxPayload);
    } else {
      Product(t.gaveUps, half + 3, c.maxPayload);
    }
  }

  lemma StepKeepsCapacity(c: Limits, t: Track, op: Op)
    requires RingOk(t.s)
    ensures |Step(c, t, op).s.slots| == |t.s.slots|
  {
    if op.DoSet? && Storable(c.maxPayload, op.key, op.value) {
      SetKeepsCapacity(t.s, op.key, op.value, op.ttl, c.limit);
    }
  }

  lemma {:induction false} ExecKeepsCapacity(c: Limits, t: Track, ops: seq<Op>)
    requires Valid(t.s)
    ensures |Exec(c, t, ops).s.slots| == |t.s.slots|
    decreases ops
  {
    if ops != [] {
      StepKeepsValid(c, t, ops[0]);
      StepKeepsCapacity(c, t, ops[0]);
      ExecKeepsCapacity(c, Step(c, t, ops[0]), ops[1..]);
    }
  }

  /**
   Any run of Sets of keys not stored and of Demotes, for any limits and a ring of at least three slots:
   memory stays within the clean bound and a payload for each of half the slots and three more.
   */
  lemma FreshRunsAreBounded(c: Limits, capacity: nat, ops: seq<Op>)
    requires Sane(c) && capacity >= 3
    requires Valid(Start(capacity).s) && Permitted(FRESH, c, Start(capacity), ops)
    ensures Exec(c, Start(capacity), ops).s.used <= FreshBound(c, capacity)
  {
    StartFresh(c, capacity);
    RunKeepsFresh(c, Start(capacity), ops);
    ExecKeepsCapacity(c, Start(capacity), ops);
    FreshUsed(c, Exec(c, Start(capacity), ops));
  }
}
