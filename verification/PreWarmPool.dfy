/**
 The workers that pre-warming sends its entries to (pkg/tieredcache/tieredcache.go:225-311): they report
 rejected entries to a channel as long as there are workers, which nobody reads until they are through.
 */
module PreWarmPool {
  import opened Payloads
  import opened Sequences
  import opened TierProtocol
  import opened TierFreshness
  import opened ReplayPool
  import opened PoolProgress
  import opened PoolSchedules
  import opened PoolReturns
  import opened PreWarm

  /** L0 rejects an entry without a key or value, or too large; SetToL1 does not check sizes. */
  function Rejected(maxPayload: nat, sent: seq<Loaded>): nat -> bool {
    (i: nat) => i < |sent| && !Storable(maxPayload, sent[i].key, sent[i].v)
  }

  function LoadJob(maxPayload: nat, sent: seq<Loaded>, start: State, batchSize: nat, workers: nat): Job<State> {
    Job(|sent|, start,
        (t: State, i: nat) =>
          (if i < |sent| then PreWarm.Apply(maxPayload, t, Load(sent[i])) else t, Rejected(maxPayload, sent)(i)),
        Channels(batchSize, workers, false))
  }

  /**
   Pre-warming returns under every schedule exactly when no more entries are rejected than there are
   workers; with one more it returns under none.
   */
  lemma PreWarmReturnsIff(maxPayload: nat, sent: seq<Loaded>, start: State, batchSize: nat, workers: nat)
    requires batchSize > 0 && workers > 0
    ensures var j := LoadJob(maxPayload, sent, start, batchSize, workers);
            var rejections := |set i | 0 <= i < |sent| && (sent[i].key == "" || sent[i].v == [] || |sent[i].v| > maxPayload)|;
            && (rejections <= workers <==> forall ms, q :: !Stuck(j, workers, ms, q))
            && (rejections > workers ==> forall ms, q :: Runs(j, Init(j, workers), ms, q) ==> !q.producer.Finished?)
  {
    var j, rejected := LoadJob(maxPayload, sent, start, batchSize, workers), Rejected(maxPayload, sent);
    assert OutcomesFixed(j, rejected);
    FilterSize(|sent|, rejected);
    assert Chosen(|sent|, rejected)
      == set i | 0 <= i < |sent| && (sent[i].key == "" || sent[i].v == [] || |sent[i].v| > maxPayload);
    CompletesIff(j, workers, rejected);
    forall ms, q | Runs(j, Init(j, workers), ms, q) && q.producer.Finished? ensures FailureCount(j, rejected) <= workers {
      FinishNeedsRoom(j, workers, ms, q, rejected);
    }
  }

  lemma {:induction false} LoadedInOrder(maxPayload: nat, sent: seq<Loaded>, start: State, batchSize: nat, workers: nat, order: seq<nat>)
    returns (es: seq<Effect>)
    requires Picks(order, |sent|)
    ensures Meanwhile(sent, es)
    ensures Fold(LoadJob(maxPayload, sent, start, batchSize, workers), order) == ApplyAll(maxPayload, start, es)
  {
    if order == [] {
      es := [];
    } else {
      var front, i := order[..|order| - 1], order[|order| - 1];
      PicksFront(order, |sent|);
      var es0 := LoadedInOrder(maxPayload, sent, start, batchSize, workers, front);
      ApplyAllSnoc(maxPayload, start, es0, Load(sent[i]));
      es := es0 + [Load(sent[i])];
    }
  }

  lemma {:induction false} ApplyAllSnoc(maxPayload: nat, s: State, es: seq<Effect>, e: Effect)
    ensures ApplyAll(maxPayload, s, es + [e]) == PreWarm.Apply(maxPayload, ApplyAll(maxPayload, s, es), e)
    decreases es
  {
    if es == [] {
      NothingFirst([e]);
      assert [e][1..] == [];
    } else {
      assert (es + [e])[1..] == es[1..] + [e];
      ApplyAllSnoc(maxPayload, PreWarm.Apply(maxPayload, s, es[0]), es[1..], e);
    }
  }

  /** At every moment of every schedule, with rejections or without, every Get answers as before. */
  lemma PoolKeepsReads(maxPayload: nat, hash: Key -> nat, shards: seq<seq<Item>>, m: nat, start: State,
                       batchSize: nat, workers: nat, ms: seq<Move>, q: Pool<State>, k: Key)
    requires |shards| > 0 && AtHome(hash, shards) && m <= |Flatten(shards)| && start.l1 == MapOf(Flatten(shards))
    requires forall key :: Agrees(maxPayload, start, key)
    requires batchSize > 0 && workers > 0
    requires var j := LoadJob(maxPayload, Loadable(Flatten(shards)[..m]), start, batchSize, workers);
             Runs(j, Init(j, workers), ms, q)
    ensures ReadNow(maxPayload, q.tiers, k) == ReadNow(maxPayload, start, k)
  {
    var sent := Loadable(Flatten(shards)[..m]);
    var j := LoadJob(maxPayload, sent, start, batchSize, workers);
    InitInv(j, workers);
    ReplayPool.RunKeepsInv(j, Init(j, workers), ms, q);
    AppliedOnce(j, q);
    var es := LoadedInOrder(maxPayload, sent, start, batchSize, workers, q.order);
    PreWarmKeepsReadsIff(maxPayload, hash, shards, m, start);
    assert ReadsStay(maxPayload, start, sent);
  }

  // ---------------------------------------------------------------- what has been loaded

  predicate DistinctLoads(sent: seq<Loaded>) {
    forall a, b :: 0 <= a < b < |sent| ==> sent[a].key != sent[b].key
  }

  /** The entries of `order` are in L0, those that L0 accepts, and nothing else has changed there. */
  ghost predicate LoadedBy(maxPayload: nat, sent: seq<Loaded>, order: seq<nat>, before: map<Key, Value>, after: map<Key, Value>)
    requires Picks(order, |sent|)
  {
    && (forall i :: i in order && Storable(maxPayload, sent[i].key, sent[i].v) ==>
          sent[i].key in after && after[sent[i].key] == sent[i].v)
    && (forall k :: (forall i :: i in order ==> sent[i].key != k || !Storable(maxPayload, k, sent[i].v)) ==>
          (k in after <==> k in before) && (k in after ==> after[k] == before[k]))
  }

  lemma OtherKeys(sent: seq<Loaded>, front: seq<nat>, i: nat)
    requires DistinctLoads(sent) && Picks(front + [i], |sent|) && Picks(front, |sent|) && i < |sent|
    ensures forall j :: j in front ==> sent[j].key != sent[i].key
  {
    forall j | j in front ensures sent[j].key != sent[i].key {
      var a :| 0 <= a < |front| && front[a] == j;
      assert (front + [i])[a] == j && (front + [i])[|front|] == i;
      assert j < i ==> sent[j].key != sent[i].key;
    }
  }

  lemma LoadOneMore(maxPayload: nat, sent: seq<Loaded>, front: seq<nat>, i: nat, s: State, before: map<Key, Value>)
    requires Picks(front + [i], |sent|) && Picks(front, |sent|) && i < |sent|
    requires forall j :: j in front ==> sent[j].key != sent[i].key
    requires LoadedBy(maxPayload, sent, front, before, s.l0)
    ensures LoadedBy(maxPayload, sent, front + [i], before, PreWarm.Apply(maxPayload, s, Load(sent[i])).l0)
  {
    assert forall j :: j in front + [i] <==> j in front || j == i;
  }

  lemma {:induction false} OrderIsLoaded(maxPayload: nat, sent: seq<Loaded>, start: State, batchSize: nat, workers: nat, order: seq<nat>)
    requires DistinctLoads(sent) && Picks(order, |sent|)
    ensures LoadedBy(maxPayload, sent, order, start.l0, Fold(LoadJob(maxPayload, sent, start, batchSize, workers), order).l0)
  {
    if order != [] {
      var front, i := order[..|order| - 1], order[|order| - 1];
      PicksFront(order, |sent|);
      OrderIsLoaded(maxPayload, sent, start, batchSize, workers, front);
      OtherKeys(sent, front, i);
      LoadOneMore(maxPayload, sent, front, i, Fold(LoadJob(maxPayload, sent, start, batchSize, workers), front), start.l0);
    }
  }

  /** Once the workers are through, with nothing evicted meanwhile, L0 holds every entry sent that it accepts, and what it held. */
  lemma PreWarmLoadsEverything(maxPayload: nat, sent: seq<Loaded>, start: State, batchSize: nat, workers: nat,
                               ms: seq<Move>, q: Pool<State>)
    requires DistinctLoads(sent) && batchSize > 0 && workers > 0
    requires var j := LoadJob(maxPayload, sent, start, batchSize, workers);
             Runs(j, Init(j, workers), ms, q) && q.producer.Finished?
    ensures forall l :: l in sent && l.key != "" && l.v != [] && |l.v| <= maxPayload ==>
              l.key in q.tiers.l0 && q.tiers.l0[l.key] == l.v
    ensures forall k :: k in start.l0 && (forall l :: l in sent ==> l.key != k) ==>
              k in q.tiers.l0 && q.tiers.l0[k] == start.l0[k]
  {
    var j := LoadJob(maxPayload, sent, start, batchSize, workers);
    FinishedRun(j, workers, ms, q);
    AllInOrder(q.order, |sent|);
    InitInv(j, workers);
    ReplayPool.RunKeepsInv(j, Init(j, workers), ms, q);
    AppliedOnce(j, q);
    OrderIsLoaded(maxPayload, sent, start, batchSize, workers, q.order);
    forall l | l in sent && Storable(maxPayload, l.key, l.v) ensures l.key in q.tiers.l0 && q.tiers.l0[l.key] == l.v {
      var i :| 0 <= i < |sent| && sent[i] == l;
      assert i in q.order;
    }
  }

  /** What the loop sends has each key once. */
  lemma {:induction false} LoadableDistinct(items: seq<Item>)
    requires Distinct(items)
    ensures DistinctLoads(Loadable(items))
    ensures forall l :: l in Loadable(items) ==> exists i :: 0 <= i < |items| && items[i].key == l.key
  {
    if items != [] {
      var front := items[..|items| - 1];
      LoadableDistinct(front);
      forall l | l in Loadable(items) ensures exists i :: 0 <= i < |items| && items[i].key == l.key {
        if l in Loadable(front) {
          var i :| 0 <= i < |front| && front[i].key == l.key;
          assert items[i].key == l.key;
        } else {
          assert items[|items| - 1].key == l.key;
        }
      }
    }
  }

  lemma SentOnce(hash: Key -> nat, shards: seq<seq<Item>>, m: nat)
    requires |shards| > 0 && AtHome(hash, shards) && m <= |Flatten(shards)|
    ensures DistinctLoads(Loadable(Flatten(shards)[..m]))
  {
    DropNothing(shards);
    EveryKeyOnce(hash, shards, 0);
    LoadableDistinct(Flatten(shards)[..m]);
  }
}
