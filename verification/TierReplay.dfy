/**
 What recovery does to the tiers: the apply function of `performRecovery`
 (pkg/tieredcache/tieredcache.go:183-200) run by the worker pool, and exactly when its result depends
 on the schedule.  L0 is a map here; StoreReplay carries the results over to the sharded cache.
 */
module TierReplay {
  import opened Bytes
  import opened Payloads
  import opened Sequences
  import opened WalFormat
  import opened ReplayPool
  import opened PoolProgress
  import opened PoolSchedules
  import opened PoolReturns
  import opened WalManager

  type Value = seq<Byte>

  datatype Tiers = Tiers(l0: map<string, Value>, l1: map<string, Value>)

  /** One key in one tier. */
  datatype Place = Place(tier: int, key: string)

  function PlaceOf(e: WalEntry): Place {
    Place(e.tier, e.key)
  }

  function Look(t: Tiers, p: Place): Option<Value> {
    if p.tier == 0 && p.key in t.l0 then Some(t.l0[p.key])
    else if p.tier == 1 && p.key in t.l1 then Some(t.l1[p.key])
    else None
  }

  /** The new tiers, and whether the call returned an error. */
  function ApplyEntry(maxPayload: nat, t: Tiers, e: WalEntry): (Tiers, bool) {
    if e.operation == OP_SET then
      if e.tier == 0 then
        if !Storable(maxPayload, e.key, e.value) then (t, true)
        else (t.(l0 := t.l0[e.key := e.value]), false)
      else if e.tier == 1 then
        if e.key == "" || e.value == [] then (t, true)
        else (t.(l1 := t.l1[e.key := e.value]), false)
      else (t, false)
    else if e.operation == OP_DELETE then
      if e.tier == 0 then
        if e.key == "" || e.key !in t.l0 then (t, true)
        else (t.(l0 := t.l0 - {e.key}), false)
      else if e.tier == 1 then
        if e.key == "" then (t, true)
        else (t.(l1 := t.l1 - {e.key}), false)
      else (t, false)
    else (t, false)
  }

  function ReplayJob(maxPayload: nat, es: seq<WalEntry>, start: Tiers): Job<Tiers> {
    EntryJob(es, start, (t: Tiers, e: WalEntry) => ApplyEntry(maxPayload, t, e))
  }

  // ---------------------------------------------------------------- one entry, one place

  /** Entries that overwrite their place whatever it held: valid sets, and deletes of a named key. */
  predicate Decides(maxPayload: nat, e: WalEntry) {
    && e.key != "" && (e.tier == 0 || e.tier == 1)
    && (e.operation == OP_DELETE ||
        (e.operation == OP_SET && e.value != [] && (e.tier == 0 ==> |e.value| <= maxPayload)))
  }

  function Outcome(e: WalEntry): Option<Value> {
    if e.operation == OP_SET then Some(e.value) else None
  }

  /** An entry touches its own place only, decides it or leaves it, and fails by what is there. */
  lemma EntryIsLocal(maxPayload: nat, t: Tiers, u: Tiers, e: WalEntry, p: Place)
    ensures p != PlaceOf(e) ==> Look(ApplyEntry(maxPayload, t, e).0, p) == Look(t, p)
    ensures p == PlaceOf(e) ==>
              Look(ApplyEntry(maxPayload, t, e).0, p) == if Decides(maxPayload, e) then Outcome(e) else Look(t, p)
    ensures Look(t, PlaceOf(e)) == Look(u, PlaceOf(e)) ==> ApplyEntry(maxPayload, t, e).1 == ApplyEntry(maxPayload, u, e).1
  {
  }

  /** An entry fails without a key, as a Set that its tier rejects, or as a Delete of a key that L0 does not hold. */
  lemma EntryFailsIff(maxPayload: nat, t: Tiers, e: WalEntry)
    ensures ApplyEntry(maxPayload, t, e).1 <==>
            && (e.operation == 0 || e.operation == 1) && (e.tier == 0 || e.tier == 1)
            && (|| e.key == ""
                || (e.operation == 0 && (e.value == [] || (e.tier == 0 && |e.value| > maxPayload)))
                || (e.operation == 1 && e.tier == 0 && e.key !in t.l0))
    ensures ApplyEntry(maxPayload, t, e).1 ==> ApplyEntry(maxPayload, t, e).0 == t
  {
  }

  lemma SamePlacesSameTiers(t: Tiers, u: Tiers)
    requires forall p :: Look(t, p) == Look(u, p)
    ensures t == u
  {
    forall k ensures (k in t.l0 <==> k in u.l0) && (k in t.l0 ==> t.l0[k] == u.l0[k]) {
      assert Look(t, Place(0, k)) == Look(u, Place(0, k));
    }
    forall k ensures (k in t.l1 <==> k in u.l1) && (k in t.l1 ==> t.l1[k] == u.l1[k]) {
      assert Look(t, Place(1, k)) == Look(u, Place(1, k));
    }
    assert t.l0 == u.l0 && t.l1 == u.l1;
  }

  // ---------------------------------------------------------------- any order

  /** The last entry in `order` that decides place `p`, if any does. */
  function LastDecider(maxPayload: nat, es: seq<WalEntry>, order: seq<nat>, p: Place): (r: Option<nat>)
    requires InRange(order, |es|)
    ensures r.Some? ==> r.value in order && PlaceOf(es[r.value]) == p && Decides(maxPayload, es[r.value])
    ensures r.None? ==> forall i :: i in order && PlaceOf(es[i]) == p ==> !Decides(maxPayload, es[i])
  {
    if order == [] then None
    else
      var front, i := order[..|order| - 1], order[|order| - 1];
      assert order == front + [i];
      if PlaceOf(es[i]) == p && Decides(maxPayload, es[i]) then Some(i)
      else LastDecider(maxPayload, es, front, p)
  }

  /** After any order of applications a place holds what its last decider left, or what it held at first. */
  lemma {:induction false} PlaceAfter(maxPayload: nat, es: seq<WalEntry>, start: Tiers, order: seq<nat>, p: Place)
    requires InRange(order, |es|)
    ensures var d := LastDecider(maxPayload, es, order, p);
            Look(Fold(ReplayJob(maxPayload, es, start), order), p) == if d.Some? then Outcome(es[d.value]) else Look(start, p)
  {
    if order != [] {
      var front, i := order[..|order| - 1], order[|order| - 1];
      assert order == front + [i];
      PlaceAfter(maxPayload, es, start, front, p);
      var t := Fold(ReplayJob(maxPayload, es, start), front);
      EntryIsLocal(maxPayload, t, t, es[i], p);
    }
  }

  predicate DistinctPlaces(es: seq<WalEntry>) {
    forall a, b :: 0 <= a < b < |es| ==> PlaceOf(es[a]) != PlaceOf(es[b])
  }

  /** Both decide the same place. */
  predicate Rivals(maxPayload: nat, a: WalEntry, b: WalEntry) {
    PlaceOf(a) == PlaceOf(b) && Decides(maxPayload, a) && Decides(maxPayload, b)
  }

  /** At each place all deciding entries leave the same thing. */
  predicate Agreeing(maxPayload: nat, es: seq<WalEntry>) {
    forall a, b :: 0 <= a < b < |es| && Rivals(maxPayload, es[a], es[b]) ==> Outcome(es[a]) == Outcome(es[b])
  }

  lemma OnePlaceOneEntry(es: seq<WalEntry>, a: nat, b: nat)
    requires DistinctPlaces(es) && a < |es| && b < |es|
    ensures PlaceOf(es[a]) == PlaceOf(es[b]) <==> a == b
  {
    assert a < b || b < a || a == b;
  }

  lemma FinishedOrder(maxPayload: nat, es: seq<WalEntry>, start: Tiers, workers: nat, ms: seq<Move>, q: Pool<Tiers>)
    requires workers > 0 && q.producer.Finished?
    requires Runs(ReplayJob(maxPayload, es, start), Init(ReplayJob(maxPayload, es, start), workers), ms, q)
    ensures InRange(q.order, |es|) && q.tiers == Fold(ReplayJob(maxPayload, es, start), q.order)
    ensures forall i :: i in q.order <==> 0 <= i < |es|
  {
    var j := ReplayJob(maxPayload, es, start);
    FinishedRun(j, workers, ms, q);
    AllInOrder(q.order, |es|);
  }

  /** Two orders of all the entries leave the same at a place whose deciding entries agree. */
  lemma SamePlaceAfter(maxPayload: nat, es: seq<WalEntry>, start: Tiers, order: seq<nat>, order': seq<nat>, p: Place)
    requires Agreeing(maxPayload, es) && InRange(order, |es|) && InRange(order', |es|)
    requires forall i :: i in order <==> i in order'
    ensures Look(Fold(ReplayJob(maxPayload, es, start), order), p) == Look(Fold(ReplayJob(maxPayload, es, start), order'), p)
  {
    PlaceAfter(maxPayload, es, start, order, p);
    PlaceAfter(maxPayload, es, start, order', p);
    var d, d' := LastDecider(maxPayload, es, order, p), LastDecider(maxPayload, es, order', p);
    if d.Some? && d'.Some? && d.value != d'.value {
      var a, b := if d.value < d'.value then d.value else d'.value, if d.value < d'.value then d'.value else d.value;
      assert Outcome(es[a]) == Outcome(es[b]);
    }
  }

  /** Where deciding entries agree, any order of all the entries leaves what the log's order leaves. */
  lemma AgreeingOrders(maxPayload: nat, es: seq<WalEntry>, start: Tiers, order: seq<nat>)
    requires Agreeing(maxPayload, es) && InRange(order, |es|) && forall i :: i in order <==> 0 <= i < |es|
    ensures Fold(ReplayJob(maxPayload, es, start), order) == Fold(ReplayJob(maxPayload, es, start), Range(0, |es|))
  {
    var j, all := ReplayJob(maxPayload, es, start), Range(0, |es|);
    forall i ensures i in order <==> i in all {
      assert 0 <= i < |es| ==> all[i] == i;
    }
    forall p ensures Look(Fold(j, order), p) == Look(Fold(j, all), p) {
      SamePlaceAfter(maxPayload, es, start, order, all, p);
    }
    SamePlacesSameTiers(Fold(j, order), Fold(j, all));
  }

  /** So every schedule that finishes leaves what in-order replay leaves. */
  lemma AgreeingReplay(maxPayload: nat, es: seq<WalEntry>, start: Tiers, workers: nat, ms: seq<Move>, q: Pool<Tiers>)
    requires workers > 0 && Agreeing(maxPayload, es) && q.producer.Finished?
    requires Runs(ReplayJob(maxPayload, es, start), Init(ReplayJob(maxPayload, es, start), workers), ms, q)
    ensures q.tiers == Fold(ReplayJob(maxPayload, es, start), Range(0, |es|))
  {
    FinishedOrder(maxPayload, es, start, workers, ms, q);
    AgreeingOrders(maxPayload, es, start, q.order);
  }

  /**
   Entries at pairwise distinct places: every schedule of every number of workers that finishes
   leaves the same two maps as in-order replay.
   */
  lemma ParallelReplay(maxPayload: nat, es: seq<WalEntry>, start: Tiers, workers: nat, ms: seq<Move>, q: Pool<Tiers>)
    requires workers > 0 && DistinctPlaces(es)
    requires Runs(ReplayJob(maxPayload, es, start), Init(ReplayJob(maxPayload, es, start), workers), ms, q)
    requires q.producer.Finished?
    ensures q.tiers == Fold(ReplayJob(maxPayload, es, start), Range(0, |es|))
  {
    AgreeingReplay(maxPayload, es, start, workers, ms, q);
  }

  /** Every schedule that finishes leaves the in-order tiers. */
  ghost predicate ScheduleFree(maxPayload: nat, es: seq<WalEntry>, start: Tiers, workers: nat) {
    var j := ReplayJob(maxPayload, es, start);
    forall ms, q :: Runs(j, Init(j, workers), ms, q) && q.producer.Finished? ==> q.tiers == Fold(j, Range(0, |es|))
  }

  lemma LastInOrder(maxPayload: nat, es: seq<WalEntry>, order: seq<nat>)
    requires InRange(order, |es|) && order != []
    ensures var i := order[|order| - 1];
            Decides(maxPayload, es[i]) ==> LastDecider(maxPayload, es, order, PlaceOf(es[i])) == Some(i)
  {
  }

  /** Entries `a` and `b` disagree about their place, so holding one of them back leaves other tiers. */
  lemma DisagreementShows(maxPayload: nat, es: seq<WalEntry>, start: Tiers, workers: nat, a: nat, b: nat)
    returns (ms: seq<Move>, q: Pool<Tiers>)
    requires workers >= 2 && OrdersFit(ReplayJob(maxPayload, es, start), workers)
    requires a < |es| && b < |es| && Rivals(maxPayload, es[a], es[b]) && Outcome(es[a]) != Outcome(es[b])
    ensures Runs(ReplayJob(maxPayload, es, start), Init(ReplayJob(maxPayload, es, start), workers), ms, q)
    ensures q.producer.Finished? && q.tiers != Fold(ReplayJob(maxPayload, es, start), Range(0, |es|))
  {
    var j, all, p := ReplayJob(maxPayload, es, start), Range(0, |es|), PlaceOf(es[a]);
    assert all[a] == a;
    var d := LastDecider(maxPayload, es, all, p);
    var i := if Outcome(es[a]) != Outcome(es[d.value]) then a else b;
    ms, q := HoldBack(j, workers, i);
    FinishedOrder(maxPayload, es, start, workers, ms, q);
    LastInOrder(maxPayload, es, q.order);
    PlaceAfter(maxPayload, es, start, q.order, p);
    PlaceAfter(maxPayload, es, start, all, p);
  }

  /**
   With two workers or more, the result is that of in-order replay under every schedule exactly when at
   each place all deciding entries leave the same thing.
   */
  lemma ScheduleFreeIff(maxPayload: nat, es: seq<WalEntry>, start: Tiers, workers: nat)
    requires workers >= 2 && OrdersFit(ReplayJob(maxPayload, es, start), workers)
    ensures ScheduleFree(maxPayload, es, start, workers) <==> Agreeing(maxPayload, es)
  {
    var j := ReplayJob(maxPayload, es, start);
    if Agreeing(maxPayload, es) {
      forall ms, q | Runs(j, Init(j, workers), ms, q) && q.producer.Finished? ensures q.tiers == Fold(j, Range(0, |es|)) {
        AgreeingReplay(maxPayload, es, start, workers, ms, q);
      }
    } else {
      var a, b :| 0 <= a < b < |es| && Rivals(maxPayload, es[a], es[b]) && Outcome(es[a]) != Outcome(es[b]);
      var ms, q := DisagreementShows(maxPayload, es, start, workers, a, b);
    }
  }

  /** With repeats, each place ends as one of its own deciding entries left it, or untouched if it has none. */
  lemma RepeatedKeysReplay(maxPayload: nat, es: seq<WalEntry>, start: Tiers, workers: nat, ms: seq<Move>, q: Pool<Tiers>, p: Place)
    requires workers > 0
    requires Runs(ReplayJob(maxPayload, es, start), Init(ReplayJob(maxPayload, es, start), workers), ms, q)
    requires q.producer.Finished?
    ensures (forall i :: 0 <= i < |es| && PlaceOf(es[i]) == p ==> !Decides(maxPayload, es[i]))
         || (exists i :: 0 <= i < |es| && PlaceOf(es[i]) == p && Decides(maxPayload, es[i]) && Look(q.tiers, p) == Outcome(es[i]))
    ensures (forall i :: 0 <= i < |es| && PlaceOf(es[i]) == p ==> !Decides(maxPayload, es[i])) ==> Look(q.tiers, p) == Look(start, p)
  {
    FinishedOrder(maxPayload, es, start, workers, ms, q);
    PlaceAfter(maxPayload, es, start, q.order, p);
  }

  /** An actual schedule of two workers that applies two entries for one place in the wrong order. */
  lemma RepeatedKeysReorder(maxPayload: nat, a: WalEntry, b: WalEntry, start: Tiers) returns (ms: seq<Move>, q: Pool<Tiers>)
    requires Rivals(maxPayload, a, b)
    ensures var j := ReplayJob(maxPayload, [a, b], start);
            && Runs(j, Init(j, 2), ms, q) && q.producer.Finished? && q.order == [1, 0]
            && Look(q.tiers, PlaceOf(a)) == Outcome(a) && Look(Fold(j, Range(0, 2)), PlaceOf(a)) == Outcome(b)
  {
    var es, j := [a, b], ReplayJob(maxPayload, [a, b], start);
    ShortLogsFit(j, 2);
    ms, q := HoldBack(j, 2, 0);
    FinishedRun(j, 2, ms, q);
    PermutationOfTwo(q.order);
    LastInOrder(maxPayload, es, q.order);
    LastInOrder(maxPayload, es, Range(0, 2));
    PlaceAfter(maxPayload, es, start, q.order, PlaceOf(a));
    PlaceAfter(maxPayload, es, start, Range(0, 2), PlaceOf(a));
  }

  lemma PermutationOfTwo(order: seq<nat>)
    requires multiset(order) == multiset(Range(0, 2)) && order != [] && order[|order| - 1] == 0
    ensures order == [1, 0]
  {
    assert Range(0, 2) == [0, 1];
    assert |order| == |multiset(order)| == |multiset([0, 1])|;
    assert order == [order[0]] + [0];
    assert multiset(order)[1] == 1;
  }

  // ---------------------------------------------------------------- completion

  /** Recovery runs at most 100 entries ahead of its workers, and as far as that on some schedule. */
  lemma AtMostHundredAhead(maxPayload: nat, es: seq<WalEntry>, start: Tiers, workers: nat)
    ensures var j := ReplayJob(maxPayload, es, start);
            && (forall ms, q :: Runs(j, Init(j, workers), ms, q) ==> |q.queue| <= 100)
            && (|es| >= 100 ==> exists ms, q :: Runs(j, Init(j, workers), ms, q) && |q.queue| == 100)
  {
    var j := ReplayJob(maxPayload, es, start);
    forall ms, q | Runs(j, Init(j, workers), ms, q) ensures |q.queue| <= 100 {
      QueueWithin(j, Init(j, workers), ms, q);
    }
    if |es| >= 100 {
      var ms, q := FillQueue(j, workers, 100);
    }
  }

  function FailsAtStart(maxPayload: nat, es: seq<WalEntry>, start: Tiers): nat -> bool {
    (i: nat) => i < |es| && ApplyEntry(maxPayload, start, es[i]).1
  }

  /** Distinct places: whether an entry fails is settled before the replay begins. */
  lemma DistinctOutcomesFixed(maxPayload: nat, es: seq<WalEntry>, start: Tiers)
    requires DistinctPlaces(es)
    ensures OutcomesFixed(ReplayJob(maxPayload, es, start), FailsAtStart(maxPayload, es, start))
  {
    var j, fails := ReplayJob(maxPayload, es, start), FailsAtStart(maxPayload, es, start);
    forall order: seq<nat>, i: nat | NoRepeats(order + [i]) && i < j.count
      ensures j.apply(Fold(j, order), i).1 == fails(i)
    {
      var known := Known(order, |es|);
      KnownFold(maxPayload, es, start, order);
      PlaceAfter(maxPayload, es, start, known, PlaceOf(es[i]));
      KnownKeeps(order, |es|, i);
      var d := LastDecider(maxPayload, es, known, PlaceOf(es[i]));
      if d.Some? {
        OnePlaceOneEntry(es, d.value, i);
      }
      EntryIsLocal(maxPayload, start, Fold(j, order), es[i], PlaceOf(es[i]));
    }
  }

  /** The indices of `order` that name an entry. */
  function Known(order: seq<nat>, n: nat): (r: seq<nat>)
    ensures InRange(r, n)
  {
    if order == [] then []
    else Known(order[..|order| - 1], n) + (if order[|order| - 1] < n then [order[|order| - 1]] else [])
  }

  lemma {:induction false} KnownFold(maxPayload: nat, es: seq<WalEntry>, start: Tiers, order: seq<nat>)
    ensures Fold(ReplayJob(maxPayload, es, start), Known(order, |es|)) == Fold(ReplayJob(maxPayload, es, start), order)
  {
    if order != [] {
      var front, i := order[..|order| - 1], order[|order| - 1];
      KnownFold(maxPayload, es, start, front);
      if i < |es| {
        SnocFold(ReplayJob(maxPayload, es, start), Known(front, |es|), i);
      } else {
        AppendNothing(Known(front, |es|));
      }
    }
  }

  lemma {:induction false} KnownKeeps(order: seq<nat>, n: nat, i: nat)
    requires NoRepeats(order + [i])
    ensures i !in Known(order, n)
  {
    if order != [] {
      var front, last := order[..|order| - 1], order[|order| - 1];
      assert (order + [i])[|order| - 1] == last && (order + [i])[|order|] == i;
      forall a, b | 0 <= a < b < |front + [i]| ensures (front + [i])[a] != (front + [i])[b] {
        assert (order + [i])[a] != (order + [i])[if b < |front| then b else |order|];
      }
      KnownKeeps(front, n, i);
    }
  }

  /**
   Recovery over any log returns under every schedule exactly when, in whatever order that many workers can
   apply the entries, the failures fit the error channel.  At distinct places the order does not matter: no
   entry fails against the starting tiers, or entries and failures together fit.
   */
  lemma ReplayCompletesIff(maxPayload: nat, es: seq<WalEntry>, start: Tiers, workers: nat)
    requires workers > 0
    ensures var j, fails := ReplayJob(maxPayload, es, start), FailsAtStart(maxPayload, es, start);
            && (OrdersFit(j, workers) <==> forall ms, q :: !Stuck(j, workers, ms, q))
            && (DistinctPlaces(es) ==>
                  (OrdersFit(j, workers) <==> FailureCount(j, fails) == 0 || |es| + FailureCount(j, fails) <= 10))
  {
    ReturnsIff(ReplayJob(maxPayload, es, start), workers);
    if DistinctPlaces(es) {
      DistinctOutcomesFixed(maxPayload, es, start);
      FixedErrorsFitIff(ReplayJob(maxPayload, es, start), workers, FailsAtStart(maxPayload, es, start));
    }
  }

  // ---------------------------------------------------------------- a log that only one worker is sure to replay

  /** `n` rounds of setting and deleting key `k` in L0, as they were logged. */
  function Rounds(put: WalEntry, remove: WalEntry, n: nat): seq<WalEntry> {
    seq(2 * n, i => if i % 2 == 0 then put else remove)
  }

  /** The two entries of a round: an acceptable Set and a Delete of the same key. */
  predicate Round(maxPayload: nat, put: WalEntry, remove: WalEntry) {
    && put.operation == OP_SET && put.tier == 0 && Storable(maxPayload, put.key, put.value)
    && remove.operation == OP_DELETE && remove.tier == 0 && remove.key == put.key
  }

  lemma RoundStep(maxPayload: nat, put: WalEntry, remove: WalEntry, n: nat, start: Tiers, t: Tiers, i: nat)
    requires Round(maxPayload, put, remove) && i < 2 * n && (i % 2 == 1 ==> put.key in t.l0)
    ensures var r := ReplayJob(maxPayload, Rounds(put, remove, n), start).apply(t, i);
            !r.1 && ((i + 1) % 2 == 1 ==> put.key in r.0.l0)
  {
    var es := Rounds(put, remove, n);
    assert es[i] == if i % 2 == 0 then put else remove;
    assert ReplayJob(maxPayload, es, start).apply(t, i) == ApplyEntry(maxPayload, t, es[i]);
  }

  /** In the log's own order no Delete fails: its Set has just been applied. */
  lemma {:induction false} RoundsInOrder(maxPayload: nat, put: WalEntry, remove: WalEntry, n: nat, start: Tiers, i: nat)
    requires Round(maxPayload, put, remove) && i <= 2 * n
    ensures var j := ReplayJob(maxPayload, Rounds(put, remove, n), start);
            && FailedOf(j, Range(0, i)) == []
            && (i % 2 == 1 ==> put.key in Fold(j, Range(0, i)).l0)
  {
    if i > 0 {
      var j, k := ReplayJob(maxPayload, Rounds(put, remove, n), start), i - 1;
      RoundsInOrder(maxPayload, put, remove, n, start, k);
      RoundStep(maxPayload, put, remove, n, start, Fold(j, Range(0, k)), k);
      SnocRange(0, k);
      SnocFailed(j, Range(0, k), k);
      SnocFold(j, Range(0, k), k);
    }
  }

  /**
   Five rounds from a cache without the key: one worker replays them under every schedule, and with more
   workers the first Delete can overtake its Set after ten nils have filled the error channel.
   */
  lemma RoundsNeedOneWorker(maxPayload: nat, put: WalEntry, remove: WalEntry, n: nat, start: Tiers, workers: nat)
    requires Round(maxPayload, put, remove) && put.key !in start.l0 && n >= 5 && workers >= 2
    ensures var j := ReplayJob(maxPayload, Rounds(put, remove, n), start);
            (forall ms, q :: !Stuck(j, 1, ms, q)) && (exists ms, q :: Stuck(j, workers, ms, q))
  {
    var j := ReplayJob(maxPayload, Rounds(put, remove, n), start);
    RoundsInOrder(maxPayload, put, remove, n, start, 2 * n);
    OneWorkerReturnsIff(j);
    SnocFailed(j, [], 1);
    assert [] + [1] == [1];
    var ms, q := DeadlockExists(j, workers, [1]);
  }
}
