/**
 The clock ring of an L0 shard (pkg/l0/l0_cache.go:403-464) as values: which slot a pass visits
 when, what it strips, whom it evicts, and where a new key goes.
 */
module ClockRing {

  datatype Slot = Slot(key: string, reference: bool, weight: nat)

  const EMPTY_SLOT := Slot("", false, 0)

  predicate Used(x: Slot) {
    x.key != ""
  }

  function Occupied(slots: seq<Slot>): (r: nat)
    ensures r <= |slots|
  {
    if slots == [] then 0
    else Occupied(slots[..|slots| - 1]) + (if Used(slots[|slots| - 1]) then 1 else 0)
  }

  lemma {:induction false} OccupiedUpdate(slots: seq<Slot>, j: nat, x: Slot)
    requires j < |slots|
    ensures Occupied(slots[j := x]) + (if Used(slots[j]) then 1 else 0)
         == Occupied(slots) + (if Used(x) then 1 else 0)
  {
    var n := |slots| - 1;
    if j == n {
      assert slots[j := x][..n] == slots[..n];
    } else {
      assert slots[j := x][..n] == slots[..n][j := x];
      OccupiedUpdate(slots[..n], j, x);
    }
  }

  lemma {:induction false} OccupiedByKeys(s: seq<Slot>, t: seq<Slot>)
    requires |s| == |t| && forall j :: 0 <= j < |s| ==> s[j].key == t[j].key
    ensures Occupied(s) == Occupied(t)
  {
    if s != [] {
      OccupiedByKeys(s[..|s| - 1], t[..|t| - 1]);
    }
  }

  lemma {:induction false} OccupiedFull(slots: seq<Slot>)
    ensures Occupied(slots) == |slots| <==> forall j :: 0 <= j < |slots| ==> Used(slots[j])
  {
    if slots != [] {
      OccupiedFull(slots[..|slots| - 1]);
      assert forall j :: 0 <= j < |slots| - 1 ==> slots[..|slots| - 1][j] == slots[j];
    }
  }

  lemma {:induction false} OccupiedNone(slots: seq<Slot>)
    ensures Occupied(slots) == 0 <==> forall j :: 0 <= j < |slots| ==> !Used(slots[j])
  {
    if slots != [] {
      OccupiedNone(slots[..|slots| - 1]);
      assert forall j :: 0 <= j < |slots| - 1 ==> slots[..|slots| - 1][j] == slots[j];
    }
  }

  // ---------------------------------------------------------------- rotation

  /** The slot visited at turn `i` of a pass over `[0, n)` that starts at the hand. */
  function Visit(hand: nat, n: nat, i: nat): (r: nat)
    requires n > 0
    ensures r < n
  {
    (hand + i) % n
  }

  /** The turn at which slot `j` is visited. */
  function Turn(hand: nat, n: nat, j: nat): (r: nat)
    requires j < n
    ensures r < n
  {
    (j - hand) % n
  }

  lemma DivModUnique(a: int, n: nat, q: int, r: nat)
    requires n > 0 && r < n && a == q * n + r
    ensures a % n == r
  {
    var d := q - a / n;
    assert d * n == a % n - r;
    MultipleOutside(d, n);
  }

  lemma MultipleOutside(d: int, n: nat)
    ensures d > 0 ==> d * n >= n
    ensures d < 0 ==> d * n + n <= 0
  {
  }

  /** Each slot of the range is visited exactly once. */
  lemma VisitedOnce(hand: nat, n: nat, i: nat, j: nat)
    requires i < n && j < n
    ensures Visit(hand, n, i) == j <==> Turn(hand, n, j) == i
  {
    if Visit(hand, n, i) == j {
      DivModUnique(j - hand, n, -((hand + i) / n), i);
    }
    if Turn(hand, n, j) == i {
      DivModUnique(hand + i, n, -((j - hand) / n), j);
    }
  }

  // ---------------------------------------------------------------- one eviction pass

  /** A pass evicts at a slot that names a live key whose bit is clear. */
  predicate Evictable(slots: seq<Slot>, live: set<string>, j: nat)
    requires j < |slots|
  {
    Used(slots[j]) && !slots[j].reference && slots[j].key in live
  }

  /** The first turn from `i` on at which the pass evicts. */
  function FirstVictim(slots: seq<Slot>, live: set<string>, hand: nat, n: nat, i: nat): (r: nat)
    requires 0 < n <= |slots| && i <= n
    ensures i <= r <= n
    ensures forall k :: i <= k < r ==> !Evictable(slots, live, Visit(hand, n, k))
    ensures r < n ==> Evictable(slots, live, Visit(hand, n, r))
    decreases n - i
  {
    if i == n || Evictable(slots, live, Visit(hand, n, i)) then i else FirstVictim(slots, live, hand, n, i + 1)
  }

  /** Slot `j` after the first `k` turns of a pass that has not evicted. */
  function Stripped(slots: seq<Slot>, hand: nat, n: nat, k: nat, j: nat): Slot
    requires n <= |slots| && j < |slots|
  {
    if j < n && Turn(hand, n, j) < k && Used(slots[j]) then slots[j].(reference := false) else slots[j]
  }

  function Strip(slots: seq<Slot>, hand: nat, n: nat, k: nat): (r: seq<Slot>)
    requires n <= |slots|
    ensures |r| == |slots| && forall j :: 0 <= j < |r| ==> r[j] == Stripped(slots, hand, n, k, j)
  {
    seq(|slots|, j requires 0 <= j < |slots| => Stripped(slots, hand, n, k, j))
  }

  lemma StripKeepsOccupied(slots: seq<Slot>, hand: nat, n: nat, k: nat)
    requires n <= |slots|
    ensures Occupied(Strip(slots, hand, n, k)) == Occupied(slots)
  {
    OccupiedByKeys(Strip(slots, hand, n, k), slots);
  }

  /** The pass evicts iff some slot of its range is evictable, wherever the hand is. */
  lemma PassEvictsIff(slots: seq<Slot>, live: set<string>, hand: nat, n: nat)
    requires 0 < n <= |slots|
    ensures FirstVictim(slots, live, hand, n, 0) < n <==> exists j :: 0 <= j < n && Evictable(slots, live, j)
  {
    var v := FirstVictim(slots, live, hand, n, 0);
    if j :| 0 <= j < n && Evictable(slots, live, j) {
      VisitedOnce(hand, n, Turn(hand, n, j), j);
    }
  }

  /** Some slot of the range names a live key, whatever its bit. */
  predicate NamesLive(slots: seq<Slot>, live: set<string>, n: nat)
    requires n <= |slots|
  {
    exists j :: 0 <= j < n && Used(slots[j]) && slots[j].key in live
  }

  /** After a pass that evicted nothing, the next one evicts exactly when the range names a live key. */
  lemma SecondPassEvictsIff(slots: seq<Slot>, live: set<string>, hand: nat, n: nat)
    requires 0 < n <= |slots| && FirstVictim(slots, live, hand, n, 0) == n
    ensures FirstVictim(Strip(slots, hand, n, n), live, hand, n, 0) < n <==> NamesLive(slots, live, n)
  {
    var after := Strip(slots, hand, n, n);
    PassEvictsIff(after, live, hand, n);
    assert forall j :: 0 <= j < n && Used(slots[j]) ==> after[j] == slots[j].(reference := false);
    if NamesLive(slots, live, n) {
      var j :| 0 <= j < n && Used(slots[j]) && slots[j].key in live;
      assert Evictable(after, live, j);
    }
  }

  /** Before the victim, every slot visited was empty, stale, or has just lost its bit. */
  lemma SkippedSlots(slots: seq<Slot>, live: set<string>, hand: nat, n: nat, j: nat)
    requires 0 < n <= |slots| && j < n
    requires Turn(hand, n, j) < FirstVictim(slots, live, hand, n, 0)
    ensures !Used(slots[j]) || slots[j].key !in live || slots[j].reference
    ensures var k := FirstVictim(slots, live, hand, n, 0);
            Used(slots[j]) ==> Strip(slots, hand, n, k)[j] == slots[j].(reference := false)
  {
    VisitedOnce(hand, n, Turn(hand, n, j), j);
  }

  // ---------------------------------------------------------------- adding a key

  /** The first turn from `i` on that finds an empty slot. */
  function FirstEmpty(slots: seq<Slot>, hand: nat, i: nat): (r: nat)
    requires |slots| > 0 && i <= |slots|
    ensures i <= r <= |slots|
    ensures forall k :: i <= k < r ==> Used(slots[Visit(hand, |slots|, k)])
    ensures r < |slots| ==> !Used(slots[Visit(hand, |slots|, r)])
    decreases |slots| - i
  {
    if i == |slots| || !Used(slots[Visit(hand, |slots|, i)]) then i else FirstEmpty(slots, hand, i + 1)
  }

  lemma EmptyFoundIff(slots: seq<Slot>, hand: nat)
    requires |slots| > 0
    ensures FirstEmpty(slots, hand, 0) < |slots| <==> Occupied(slots) < |slots|
  {
    OccupiedFull(slots);
    if FirstEmpty(slots, hand, 0) == |slots| {
      forall j | 0 <= j < |slots| ensures Used(slots[j]) {
        VisitedOnce(hand, |slots|, Turn(hand, |slots|, j), j);
      }
    }
  }

  predicate HasSlot(slots: seq<Slot>, key: string) {
    exists j :: 0 <= j < |slots| && slots[j].key == key
  }
}
