/**
 An L0 shard as the object it is (pkg/l0/l0_cache.go:41-63): its map, ring and counters are updated
 in place.  `State` is the value of L0Spec; each method is proved to compute the function there.
 The counters are `nat`, so every subtraction in the bodies is also proved not to underflow.
 */
module L0Shard {
  import opened Bytes
  import opened ClockRing
  import Spec = L0Spec

  class Shard {
    var entries: map<string, Spec.Entry>
    var frequency: array<Slot>
    var clockHand: nat
    var freqSize: nat
    var usedMemory: nat
    var weight: nat
    var evicts: nat

    function State(): Spec.Shard
      reads this, frequency
    {
      Spec.Shard(entries, frequency[..], clockHand, freqSize, usedMemory, weight, evicts)
    }

    ghost predicate Valid()
      reads this, frequency
    {
      Spec.Valid(State())
    }

    constructor (capacity: nat)
      requires capacity > 0
      ensures Valid() && State() == Spec.EmptyShard(capacity) && fresh(frequency)
    {
      entries, clockHand, freqSize, usedMemory, weight, evicts := map[], 0, 0, 0, 0, 0;
      frequency := new Slot[capacity](_ => EMPTY_SLOT);
      new;
      OccupiedNone(frequency[..]);
      assert frequency[..] == Spec.EmptyShard(capacity).slots;
    }

    /** Takes an entry out of the map and off the counters; eviction, overwriting, Delete and Demote share it. */
    method Drop(key: string)
      requires Spec.CountersOk(State()) && key in entries
      modifies this`entries, this`usedMemory, this`weight
      ensures State() == Spec.Without(old(State()), key)
    {
      Spec.WithoutKeepsCounters(State(), key);
      var entry := entries[key];
      usedMemory := usedMemory - entry.size;
      weight := weight - entry.weight;
      entries := entries - {key};
    }

    /** The body of a successful turn: the key named by slot `idx` goes, and the hand moves past it. */
    method EvictAt(idx: nat)
      requires Spec.CountersOk(State()) && freqSize > 0
      requires idx < frequency.Length && frequency[idx].key in entries && !frequency[idx].reference
      modifies this, frequency
      ensures frequency == old(frequency)
      ensures State() == Spec.EvictedAt(old(State()), idx)
    {
      Drop(frequency[idx].key);
      evicts := evicts + 1;
      frequency[idx] := frequency[idx].(key := "", weight := 0);
      freqSize := freqSize - 1;
      clockHand := (idx + 1) % frequency.Length;
    }

    method EvictOne() returns (evicted: bool)
      requires Valid()
      modifies this, frequency
      ensures Valid() && frequency == old(frequency)
      ensures (State(), evicted) == Spec.EvictOne(old(State()))
    {
      ghost var s := State();
      Spec.EvictOneKeepsValid(s);
      if freqSize == 0 {
        return false;
      }
      ghost var victim := FirstVictim(s.slots, s.entries.Keys, s.hand, s.freqSize, 0);
      for i := 0 to freqSize
        invariant unchanged(this) && frequency == old(frequency)
        invariant i <= victim
        invariant frequency[..] == Strip(s.slots, s.hand, s.freqSize, i)
      {
        var idx := (clockHand + i) % freqSize;
        assert idx == Visit(s.hand, s.freqSize, i);
        VisitedOnce(s.hand, s.freqSize, i, idx);
        assert frequency[idx] == s.slots[idx];
        StripNext(s.slots, s.hand, s.freqSize, i);
        var ce := frequency[idx];
        if ce.key == "" {
          continue;
        }
        if !ce.reference {
          if ce.key in entries {
            assert victim == i;
            EvictAt(idx);
            return true;
          }
        } else {
          frequency[idx] := ce.(reference := false);
        }
      }
      return false;
    }

    method AddToClock(key: string, w: nat)
      requires Spec.RingOk(State()) && key != ""
      modifies this`clockHand, this`freqSize, frequency
      ensures frequency == old(frequency)
      ensures State() == Spec.AddToClock(old(State()), key, w)
    {
      ghost var s := State();
      Spec.AddToClockKeepsRing(s, key, w);
      ghost var empty := FirstEmpty(s.slots, s.hand, 0);
      for i := 0 to frequency.Length
        invariant unchanged(this) && frequency[..] == s.slots
        invariant i <= empty
      {
        var idx := (clockHand + i) % frequency.Length;
        assert idx == Visit(s.hand, |s.slots|, i);
        if frequency[idx].key == "" {
          assert empty == i;
          frequency[idx] := Slot(key, true, w);
          if freqSize < frequency.Length {
            freqSize := freqSize + 1;
          }
          return;
        }
      }
      clockHand := (clockHand + 1) % frequency.Length;
    }

    /** Set's update of the map and counters, over an old entry if there is one. */
    method Put(key: string, e: Spec.Entry)
      requires Spec.CountersOk(State())
      modifies this`entries, this`usedMemory, this`weight
      ensures State() == Spec.Insert(old(State()), key, e)
    {
      if key in entries {
        Drop(key);
      }
      entries := entries[key := e];
      usedMemory := usedMemory + e.size;
      weight := weight + e.weight;
    }

    method Set(key: string, value: seq<Byte>, ttl: int, limit: nat) returns (ghost gaveUp: bool)
      requires Valid() && key != "" && value != []
      modifies this, frequency
      ensures Valid() && frequency == old(frequency)
      ensures State() == Spec.Set(old(State()), key, value, ttl, limit)
      ensures gaveUp == Spec.MakeRoom(old(State()), Spec.NewEntry(value, ttl).weight, limit).1
    {
      var e := Spec.NewEntry(value, ttl);
      ghost var s := State();
      ghost var room := Spec.MakeRoom(s, e.weight, limit);
      Spec.SetKeepsValid(s, key, value, ttl, limit);
      gaveUp := false;
      while usedMemory + e.weight > limit && |entries| > 0
        invariant Valid() && frequency == old(frequency)
        invariant Spec.MakeRoom(State(), e.weight, limit) == room
        invariant !gaveUp
        decreases |entries|
      {
        Spec.EvictOneKeepsRing(State());
        var evicted := EvictOne();
        if !evicted {
          gaveUp := true;
          break;
        }
      }
      assert State() == room.0;
      Put(key, e);
      Spec.InsertKeepsValid(room.0, key, e);
      AddToClock(key, e.weight);
    }

    method Get(key: string, expired: bool) returns (r: Option<seq<Byte>>)
      ensures r == Spec.Find(entries, key, expired)
    {
      if key !in entries {
        return None;
      }
      var entry := entries[key];
      if entry.ttl > 0 && expired {
        return None;
      }
      return Some(entry.value);
    }

    method Delete(key: string) returns (found: bool)
      requires Valid()
      modifies this`entries, this`usedMemory, this`weight
      ensures Valid() && State() == Spec.Delete(old(State()), key)
      ensures found == (key in old(entries))
    {
      Spec.DeleteKeepsValid(State(), key);
      if key !in entries {
        return false;
      }
      Drop(key);
      return true;
    }

    method Demote(key: string) returns (found: bool)
      requires Valid()
      modifies this, frequency
      ensures Valid() && frequency == old(frequency)
      ensures State() == Spec.Demote(old(State()), key)
      ensures found == (key in old(entries))
    {
      ghost var s := State();
      Spec.DemoteKeepsValid(s, key);
      if key !in entries {
        return false;
      }
      Drop(key);
      for i := 0 to frequency.Length
        invariant State() == Spec.Without(s, key) && frequency == old(frequency)
        invariant i <= Spec.SlotOf(s.slots, key, 0)
      {
        if frequency[i].key == key {
          Spec.SlotOfUsed(s.slots, i);
          frequency[i] := frequency[i].(key := "", weight := 0);
          freqSize := freqSize - 1;
          break;
        }
      }
      return true;
    }
  }

  /** One more turn of a pass strips at most the slot it visits. */
  lemma StripNext(slots: seq<Slot>, hand: nat, n: nat, i: nat)
    requires i < n <= |slots|
    ensures var j := Visit(hand, n, i);
            Strip(slots, hand, n, i + 1)
            == Strip(slots, hand, n, i)[j := if Used(slots[j]) then slots[j].(reference := false) else slots[j]]
    ensures var j := Visit(hand, n, i);
            !(Used(slots[j]) && slots[j].reference) ==> Strip(slots, hand, n, i + 1) == Strip(slots, hand, n, i)
  {
    var j := Visit(hand, n, i);
    VisitedOnce(hand, n, i, j);
    forall k | 0 <= k < n ensures Turn(hand, n, k) == i <==> k == j {
      VisitedOnce(hand, n, i, k);
    }
  }
}
