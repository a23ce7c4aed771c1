/**
 What a crash costs L0 (pkg/tieredcache/tieredcache.go:404-494 over pkg/replay/recovery.go:221-306): Sets and
 Deletes write to L0 and then to the log, a crash takes L0, and recovery replays the log into an empty one.
 L0 evicts nothing here, and calls follow one another.
 */
module CrashRecovery {
  import opened Bytes
  import opened Sequences
  import opened WalFormat
  import opened WalManager
  import opened ReplayPool
  import opened PoolProgress
  import opened PoolSchedules
  import opened TierReplay

  datatype Call = Set(key: string, value: Value) | Delete(key: string)

  /** What the call leaves in L0: a Set that is not accepted, or a Delete of an absent key, leaves it as it was. */
  function CallL0(maxPayload: nat, l0: map<string, Value>, call: Call): map<string, Value> {
    match call
    case Set(k, v) => if k != "" && v != [] && |v| <= maxPayload then l0[k := v] else l0
    case Delete(k) => l0 - {k}
  }

  function CallsL0(maxPayload: nat, calls: seq<Call>): map<string, Value> {
    if calls == [] then map[] else CallL0(maxPayload, CallsL0(maxPayload, calls[..|calls| - 1]), calls[|calls| - 1])
  }

  /** A Set beyond the payload limit returns before it logs anything; every other call is logged, failed or not. */
  predicate IsLogged(maxPayload: nat, call: Call) {
    call.Set? ==> |call.value| <= maxPayload
  }

  function LoggedCalls(maxPayload: nat, calls: seq<Call>): seq<Call> {
    if calls == [] then []
    else
      LoggedCalls(maxPayload, calls[..|calls| - 1])
      + if IsLogged(maxPayload, calls[|calls| - 1]) then [calls[|calls| - 1]] else []
  }

  /** The entry is the call's: its operation, key and value, for L0. */
  predicate Records(call: Call, e: WalEntry) {
    && e.tier == 0 && e.key == call.key
    && (match call
        case Set(_, v) => e.operation == 0 && e.value == v
        case Delete(_) => e.operation == 1)
  }

  predicate RecordsAll(calls: seq<Call>, es: seq<WalEntry>) {
    |es| == |calls| && forall i :: 0 <= i < |es| ==> Records(calls[i], es[i])
  }

  // ---------------------------------------------------------------- from calls to entries

  lemma EntryDoesCall(maxPayload: nat, t: Tiers, call: Call, e: WalEntry)
    requires Records(call, e) && "" !in t.l0
    ensures ApplyEntry(maxPayload, t, e).0 == t.(l0 := CallL0(maxPayload, t.l0, call))
    ensures "" !in CallL0(maxPayload, t.l0, call)
  {
    if call.Delete? && (call.key == "" || call.key !in t.l0) {
      assert t.l0 - {call.key} == t.l0;
    }
  }

  lemma UnloggedDoesNothing(maxPayload: nat, l0: map<string, Value>, call: Call)
    requires !IsLogged(maxPayload, call)
    ensures CallL0(maxPayload, l0, call) == l0
  {
  }

  lemma {:induction false} LoggedCallsSuffice(maxPayload: nat, calls: seq<Call>)
    ensures CallsL0(maxPayload, LoggedCalls(maxPayload, calls)) == CallsL0(maxPayload, calls)
    ensures "" !in CallsL0(maxPayload, calls)
  {
    if calls != [] {
      var front, last := calls[..|calls| - 1], calls[|calls| - 1];
      LoggedCallsSuffice(maxPayload, front);
      if IsLogged(maxPayload, last) {
        var logged := LoggedCalls(maxPayload, front);
        assert (logged + [last])[..|logged|] == logged;
      } else {
        AppendNothing(LoggedCalls(maxPayload, front));
        UnloggedDoesNothing(maxPayload, CallsL0(maxPayload, front), last);
      }
    }
  }

  lemma {:induction false} InOrderDoesCalls(maxPayload: nat, calls: seq<Call>, es: seq<WalEntry>, l1: map<string, Value>, n: nat)
    requires RecordsAll(calls, es) && n <= |es|
    ensures Fold(ReplayJob(maxPayload, es, Tiers(map[], l1)), Range(0, n)) == Tiers(CallsL0(maxPayload, calls[..n]), l1)
    ensures "" !in CallsL0(maxPayload, calls[..n])
  {
    if n > 0 {
      InOrderDoesCalls(maxPayload, calls, es, l1, n - 1);
      var j := ReplayJob(maxPayload, es, Tiers(map[], l1));
      SnocRange(0, n - 1);
      SnocFold(j, Range(0, n - 1), n - 1);
      assert calls[..n][..n - 1] == calls[..n - 1];
      EntryDoesCall(maxPayload, Tiers(CallsL0(maxPayload, calls[..n - 1]), l1), calls[n - 1], es[n - 1]);
    }
  }

  // ---------------------------------------------------------------- from bytes to L0

  lemma {:induction false} NothingBelow(es: seq<WalEntry>, checkpoint: nat)
    requires forall i :: 0 <= i < |es| ==> es[i].sequence > checkpoint
    ensures |Beyond(es, checkpoint)| == |es| && forall i :: 0 <= i < |es| ==> Beyond(es, checkpoint)[i] == Wire(es[i])
  {
    if es != [] {
      NothingBelow(es[1..], checkpoint);
    }
  }

  /** What the log gives back, applied in its order, makes L0 what it was. */
  lemma InOrderRecovers(c: Codec, maxPayload: nat, checkpoint: nat, calls: seq<Call>, es: seq<WalEntry>, l1: map<string, Value>)
    requires AllLoggable(c, es) && RecordsAll(LoggedCalls(maxPayload, calls), es)
    requires forall i :: 0 <= i < |es| ==> es[i].sequence > checkpoint && Stable(c, es[i])
    ensures var back := ReplayOf(c, checkpoint, Log(c, es)).entries;
            && |back| == |es| && (forall i :: 0 <= i < |es| ==> back[i] == Wire(es[i]))
            && Fold(ReplayJob(maxPayload, back, Tiers(map[], l1)), Range(0, |back|)) == Tiers(CallsL0(maxPayload, calls), l1)
  {
    NothingLostIff(c, checkpoint, es);
    NothingBelow(es, checkpoint);
    var back := Beyond(es, checkpoint);
    var logged := LoggedCalls(maxPayload, calls);
    forall i | 0 <= i < |back| ensures Records(logged[i], back[i]) {
      assert Records(logged[i], es[i]);
    }
    InOrderDoesCalls(maxPayload, logged, back, l1, |back|);
    assert logged[..|back|] == logged;
    LoggedCallsSuffice(maxPayload, calls);
  }

  /**
   Where every entry beyond the checkpoint still verifies and the checkpoint is below them all, one worker
   recovers L0 as it was before the crash, from the bytes of the log, whatever the calls were and under every
   schedule that finishes; L1 stays as it is.
   */
  lemma CrashRecovers(c: Codec, maxPayload: nat, checkpoint: nat, calls: seq<Call>, es: seq<WalEntry>, l1: map<string, Value>,
                      ms: seq<Move>, q: Pool<Tiers>)
    requires AllLoggable(c, es) && RecordsAll(LoggedCalls(maxPayload, calls), es)
    requires forall i :: 0 <= i < |es| ==> es[i].sequence > checkpoint && Stable(c, es[i])
    requires var j := ReplayJob(maxPayload, ReplayOf(c, checkpoint, Log(c, es)).entries, Tiers(map[], l1));
             Runs(j, Init(j, 1), ms, q) && q.producer.Finished?
    ensures q.tiers == Tiers(CallsL0(maxPayload, calls), l1)
  {
    InOrderRecovers(c, maxPayload, checkpoint, calls, es, l1);
    SingleWorkerReplay(ReplayJob(maxPayload, ReplayOf(c, checkpoint, Log(c, es)).entries, Tiers(map[], l1)), ms, q);
  }

  /** Every schedule that finishes brings L0 back as it was. */
  ghost predicate BringsBack(maxPayload: nat, calls: seq<Call>, back: seq<WalEntry>, l1: map<string, Value>, workers: nat) {
    var j := ReplayJob(maxPayload, back, Tiers(map[], l1));
    forall ms, q :: Runs(j, Init(j, workers), ms, q) && q.producer.Finished? ==> q.tiers == Tiers(CallsL0(maxPayload, calls), l1)
  }

  /** Of each key, all Sets that L0 accepts and all Deletes leave the same. */
  predicate AgreeByKey(maxPayload: nat, es: seq<WalEntry>) {
    forall i, j :: 0 <= i < j < |es| && es[i].key == es[j].key != ""
      && (es[i].operation == 0 ==> 0 < |es[i].value| <= maxPayload)
      && (es[j].operation == 0 ==> 0 < |es[j].value| <= maxPayload)
      ==> es[i].operation == es[j].operation && (es[i].operation == 0 ==> es[i].value == es[j].value)
  }

  /** With more workers every schedule does exactly when, of each key, all accepted Sets and all Deletes leave the same. */
  lemma CrashRecoversIff(c: Codec, maxPayload: nat, checkpoint: nat, calls: seq<Call>, es: seq<WalEntry>, l1: map<string, Value>, workers: nat)
    requires AllLoggable(c, es) && RecordsAll(LoggedCalls(maxPayload, calls), es) && workers >= 2
    requires forall i :: 0 <= i < |es| ==> es[i].sequence > checkpoint && Stable(c, es[i])
    requires OrdersFit(ReplayJob(maxPayload, ReplayOf(c, checkpoint, Log(c, es)).entries, Tiers(map[], l1)), workers)
    ensures BringsBack(maxPayload, calls, ReplayOf(c, checkpoint, Log(c, es)).entries, l1, workers) <==>
            AgreeByKey(maxPayload, es)
  {
    InOrderRecovers(c, maxPayload, checkpoint, calls, es, l1);
    var back := ReplayOf(c, checkpoint, Log(c, es)).entries;
    ScheduleFreeIff(maxPayload, back, Tiers(map[], l1), workers);
    AgreeingByKey(maxPayload, LoggedCalls(maxPayload, calls), es, back);
  }

  lemma AgreeingByKey(maxPayload: nat, calls: seq<Call>, es: seq<WalEntry>, back: seq<WalEntry>)
    requires RecordsAll(calls, es) && |back| == |es| && forall i :: 0 <= i < |es| ==> back[i] == Wire(es[i])
    ensures Agreeing(maxPayload, back) <==>
            AgreeByKey(maxPayload, es)
  {
    forall i, j | 0 <= i < j < |es|
      ensures Rivals(maxPayload, back[i], back[j]) <==>
              && es[i].key == es[j].key != ""
              && (es[i].operation == 0 ==> 0 < |es[i].value| <= maxPayload)
              && (es[j].operation == 0 ==> 0 < |es[j].value| <= maxPayload)
      ensures Rivals(maxPayload, back[i], back[j]) ==>
              (Outcome(back[i]) == Outcome(back[j]) <==>
               es[i].operation == es[j].operation && (es[i].operation == 0 ==> es[i].value == es[j].value))
    {
      assert Records(calls[i], es[i]) && Records(calls[j], es[j]);
    }
  }
}
