/**
 Pre-warming L0 from L1 (pkg/tieredcache/tieredcache.go:216-321) through L1's sharded iterator
 (pkg/l1/l1_badger.go:534-614).
 */
module PreWarm {
  import opened Bytes
  import opened Payloads
  import opened Sequences
  import opened TierProtocol
  import opened TierFreshness

  /** An L1 item; reading its value may fail. */
  datatype Item = Item(key: Key, stored: Value, readable: bool)

  function Reading(x: Item): Option<Value> {
    if x.readable then Some(x.stored) else None
  }

  datatype Loaded = Loaded(key: Key, v: Value)

  function Flatten<T>(shards: seq<seq<T>>): seq<T> {
    if shards == [] then [] else shards[0] + Flatten(shards[1..])
  }

  lemma FlattenAt<T>(shards: seq<seq<T>>, i: nat)
    requires i < |shards|
    ensures Flatten(shards[i..]) == shards[i] + Flatten(shards[i + 1..])
  {
    assert shards[i..][1..] == shards[i + 1..];
  }

  /** The rest of shard `i` from `p` on, then the later shards. */
  lemma RemainingAt<T>(shards: seq<seq<T>>, i: nat, p: nat)
    requires i < |shards| && p <= |shards[i]|
    ensures p == |shards[i]| ==> shards[i][p..] + Flatten(shards[i + 1..]) == Flatten(shards[i + 1..])
    ensures p < |shards[i]| ==>
              var r := shards[i][p..] + Flatten(shards[i + 1..]);
              r[0] == shards[i][p] && r[1..] == shards[i][p + 1..] + Flatten(shards[i + 1..])
  {
  }

  class L1Iterator {
    const shards: seq<seq<Item>>
    var shard: nat
    var started: bool
    var pos: nat
    var valid: bool

    ghost predicate Valid()
      reads this
    {
      && shard <= |shards|
      && (started && shard < |shards| ==> pos < |shards[shard]| && valid)
      && (!started ==> shard == 0)
    }

    /** Next has returned false. */
    ghost predicate Exhausted()
      reads this
    {
      started && shard == |shards|
    }

    /** The items Next has not yet reached. */
    ghost function Remaining(): seq<Item>
      requires Valid()
      reads this
    {
      if !started then Flatten(shards)
      else if shard == |shards| then []
      else shards[shard][pos + 1..] + Flatten(shards[shard + 1..])
    }

    constructor (shards: seq<seq<Item>>)
      ensures Valid() && this.shards == shards && Remaining() == Flatten(shards) && !Exhausted()
    {
      this.shards := shards;
      shard, started, pos, valid := 0, false, 0, false;
    }

    /** Moves to the next item across empty and nonempty shards; the loop in preWarmL0 stops at false. */
    method Next() returns (more: bool)
      requires Valid() && !Exhausted()
      modifies this
      ensures Valid() && started && more == (old(Remaining()) != []) && more == !Exhausted()
      ensures more ==> Current() == old(Remaining())[0] && Remaining() == old(Remaining())[1..]
    {
      ghost var left := Remaining();
      if !started {
        DropNothing(shards);
        assert left == Flatten(shards[shard..]);
        more := InitShard();
        return;
      }
      pos := pos + 1;
      RemainingAt(shards, shard, pos);
      assert left == shards[shard][pos..] + Flatten(shards[shard + 1..]);
      if pos >= |shards[shard]| {
        shard := shard + 1;
        more := InitShard();
        return;
      }
      valid := true;
      return true;
    }

    method InitShard() returns (more: bool)
      requires shard <= |shards|
      modifies this
      ensures Valid() && started && more == (Flatten(shards[old(shard)..]) != []) && more == !Exhausted()
      ensures more ==>
                Current() == Flatten(shards[old(shard)..])[0] && Remaining() == Flatten(shards[old(shard)..])[1..]
    {
      started := true;
      while shard < |shards|
        invariant shard <= |shards| && started
        invariant Flatten(shards[shard..]) == Flatten(shards[old(shard)..])
        decreases |shards| - shard
      {
        FlattenAt(shards, shard);
        pos := 0;
        if |shards[shard]| > 0 {
          valid := true;
          return true;
        }
        NothingFirst(Flatten(shards[shard + 1..]));
        shard := shard + 1;
      }
      return false;
    }

    ghost function Current(): Item
      requires Valid() && started && shard < |shards|
      reads this
    {
      shards[shard][pos]
    }

    method Key() returns (k: Key)
      requires Valid() && started && !Exhausted()
      ensures k == Current().key
    {
      return shards[shard][pos].key;
    }

    method Value() returns (v: Option<Value>)
      requires Valid() && started && !Exhausted()
      ensures v == Reading(Current())
    {
      return Reading(shards[shard][pos]);
    }
  }

  /** Keys of one shard are distinct, and each hashes to its own shard. */
  ghost predicate AtHome(hash: Key -> nat, shards: seq<seq<Item>>) {
    && (forall i, j, k :: 0 <= i < |shards| && 0 <= j < k < |shards[i]| ==> shards[i][j].key != shards[i][k].key)
    && (forall i, j :: 0 <= i < |shards| && 0 <= j < |shards[i]| ==> hash(shards[i][j].key) % |shards| == i)
  }

  predicate Distinct(items: seq<Item>) {
    forall i, j :: 0 <= i < j < |items| ==> items[i].key != items[j].key
  }

  lemma {:induction false} FlattenFrom(shards: seq<seq<Item>>, x: Item)
    ensures x in Flatten(shards) <==> exists i :: 0 <= i < |shards| && x in shards[i]
  {
    if shards != [] {
      FlattenFrom(shards[1..], x);
      if i :| 0 <= i < |shards| && x in shards[i] && i > 0 {
        assert x in shards[1..][i - 1];
      }
      if i :| 0 <= i < |shards[1..]| && x in shards[1..][i] {
        assert x in shards[i + 1];
      }
    }
  }

  /** What the iterator walks has every L1 key exactly once. */
  lemma {:induction false} EveryKeyOnce(hash: Key -> nat, shards: seq<seq<Item>>, from: nat)
    requires 0 < |shards| && from <= |shards| && AtHome(hash, shards)
    ensures Distinct(Flatten(shards[from..]))
    ensures forall x :: x in Flatten(shards[from..]) <==> exists i :: from <= i < |shards| && x in shards[i]
    decreases |shards| - from
  {
    forall x ensures x in Flatten(shards[from..]) <==> exists i :: from <= i < |shards| && x in shards[i] {
      FlattenFrom(shards[from..], x);
      if i :| from <= i < |shards| && x in shards[i] {
        assert x in shards[from..][i - from];
      }
      if i :| 0 <= i < |shards[from..]| && x in shards[from..][i] {
        assert x in shards[from + i];
      }
    }
    if from < |shards| {
      FlattenAt(shards, from);
      EveryKeyOnce(hash, shards, from + 1);
      var here, rest := shards[from], Flatten(shards[from + 1..]);
      forall a, b | 0 <= a < |here| && 0 <= b < |rest| ensures here[a].key != rest[b].key {
        assert rest[b] in rest;
        var i :| from + 1 <= i < |shards| && rest[b] in shards[i];
        var j :| 0 <= j < |shards[i]| && shards[i][j] == rest[b];
      }
      DistinctConcat(here, rest);
    }
  }

  lemma DistinctConcat(s: seq<Item>, t: seq<Item>)
    requires Distinct(s) && Distinct(t)
    requires forall a, b :: 0 <= a < |s| && 0 <= b < |t| ==> s[a].key != t[b].key
    ensures Distinct(s + t)
  {
  }

  // ---------------------------------------------------------------- what is sent

  /** What one item contributes: nothing if its value cannot be read. */
  function OneLoad(x: Item): seq<Loaded> {
    if x.readable then [Loaded(x.key, x.stored)] else []
  }

  function Loadable(items: seq<Item>): seq<Loaded> {
    if items == [] then [] else Loadable(items[..|items| - 1]) + OneLoad(items[|items| - 1])
  }

  /** Every item that can be read is loaded, with its key and value, and nothing else is. */
  lemma {:induction false} LoadableIff(items: seq<Item>, l: Loaded)
    ensures l in Loadable(items) <==>
            exists i :: 0 <= i < |items| && items[i].readable && items[i].key == l.key && items[i].stored == l.v
  {
    if items != [] {
      var front := items[..|items| - 1];
      LoadableIff(front, l);
      if i :| 0 <= i < |front| && front[i].readable && front[i].key == l.key && front[i].stored == l.v {
        assert items[i] == front[i];
      }
      if i :| 0 <= i < |items| && items[i].readable && items[i].key == l.key && items[i].stored == l.v && i < |front| {
        assert front[i] == items[i];
      }
    }
  }

  function SumBytes(ls: seq<Loaded>): nat {
    if ls == [] then 0 else SumBytes(ls[..|ls| - 1]) + |ls[|ls| - 1].v|
  }

  lemma LoadableSnoc(items: seq<Item>, m: nat)
    requires m < |items|
    ensures Loadable(items[..m + 1]) == Loadable(items[..m]) + OneLoad(items[m])
  {
    assert items[..m + 1][..m] == items[..m];
  }

  lemma SumBytesSnoc(ls: seq<Loaded>, l: Loaded)
    ensures SumBytes(ls + [l]) == SumBytes(ls) + |l.v|
  {
    assert (ls + [l])[..|ls|] == ls;
  }

  lemma DropHead<T>(s: seq<T>, m: nat)
    requires m <= |s|
    ensures s[m..] == [] <==> m == |s|
    ensures m < |s| ==> s[m..][0] == s[m] && s[m..][1..] == s[m + 1..]
  {
  }

  /** Half of L0's memory: MaxMemoryMB * 0.5 * 1024 * 1024. */
  function Budget(maxMemoryMB: nat): nat {
    maxMemoryMB * 524288
  }

  /** Why the loop stopped after `m` items. */
  predicate StoppedAt(items: seq<Item>, m: nat, bytes: nat, budget: nat, underPressure: nat -> bool)
    requires m <= |items|
  {
    || m == |items|
    || underPressure(m)
    || (items[m].readable && bytes + |items[m].stored| > budget)
  }

  /** Memory was not under pressure at any of the first `m` items. */
  predicate Unpressed(underPressure: nat -> bool, m: nat) {
    forall i :: 0 <= i < m ==> !underPressure(i)
  }

  lemma UnpressedNext(underPressure: nat -> bool, m: nat)
    requires Unpressed(underPressure, m) && !underPressure(m)
    ensures Unpressed(underPressure, m + 1)
  {
  }

  /** The iterator stands at item `m` of what it walks. */
  ghost predicate At(it: L1Iterator, items: seq<Item>, m: nat)
    reads it
  {
    && it.Valid() && !it.Exhausted() && it.started
    && m < |items| && it.Current() == items[m] && it.Remaining() == items[m + 1..]
  }

  method FirstItem(it: L1Iterator, ghost items: seq<Item>) returns (more: bool)
    requires it.Valid() && !it.started && items == Flatten(it.shards)
    modifies it
    ensures it.Valid() && more == (0 < |items|) && (more ==> At(it, items, 0))
  {
    DropNothing(items);
    DropHead(items, 0);
    more := it.Next();
  }

  method NextItem(it: L1Iterator, ghost items: seq<Item>, ghost m: nat) returns (more: bool)
    requires At(it, items, m)
    modifies it
    ensures it.Valid() && more == (m + 1 < |items|) && (more ==> At(it, items, m + 1))
  {
    DropHead(items, m + 1);
    more := it.Next();
  }

  /** The body of the loop for a readable item within the budget: the batch goes to the workers when it is full. */
  method Batch(l: Loaded, batchSize: nat, sent: seq<Loaded>, batch: seq<Loaded>, count: nat)
    returns (sent': seq<Loaded>, batch': seq<Loaded>, count': nat)
    requires count == |sent|
    ensures sent' + batch' == sent + batch + [l] && count' == |sent'|
  {
    sent', batch', count' := sent, batch + [l], count;
    Associate(sent, batch, [l]);
    if |batch'| >= batchSize {
      sent', count', batch' := sent + batch', count + |batch'|, [];
      AppendNothing(sent');
    }
  }

  /** The loop's data after `m` items: what was sent or waits in the batch is what those items loaded. */
  ghost predicate Progress(items: seq<Item>, m: nat, budget: nat, sent: seq<Loaded>, batch: seq<Loaded>, count: nat, bytes: nat) {
    && m <= |items| && sent + batch == Loadable(items[..m])
    && count == |sent| && bytes == SumBytes(sent + batch) <= budget
  }

  method Consider(key: Key, reading: Option<Value>, budget: nat, batchSize: nat, ghost items: seq<Item>, ghost m: nat,
                  sent: seq<Loaded>, batch: seq<Loaded>, count: nat, bytes: nat)
    returns (stop: bool, sent': seq<Loaded>, batch': seq<Loaded>, count': nat, bytes': nat)
    requires m < |items| && key == items[m].key && reading == Reading(items[m]) && Progress(items, m, budget, sent, batch, count, bytes)
    ensures stop == (reading.Some? && bytes + |reading.value| > budget)
    ensures stop ==> sent' == sent && batch' == batch && count' == count && bytes' == bytes
    ensures !stop ==> Progress(items, m + 1, budget, sent', batch', count', bytes')
  {
    stop, sent', batch', count', bytes' := false, sent, batch, count, bytes;
    LoadableSnoc(items, m);
    if reading.None? {
      AppendNothing(sent + batch);
      return;
    }
    var value := reading.value;
    if bytes + |value| > budget {
      stop := true;
      return;
    }
    SumBytesSnoc(sent + batch, Loaded(key, value));
    sent', batch', count' := Batch(Loaded(key, value), batchSize, sent, batch, count);
    bytes' := bytes + |value|;
  }

  /**
   Everything sent is the readable part of a prefix of the iteration, in order and once, across batch
   flushes; bytes stay within half of L0's memory and the count is exact.
   */
  method PreWarmL0(it: L1Iterator, maxMemoryMB: nat, batchSize: nat, underPressure: nat -> bool)
    returns (sent: seq<Loaded>, count: nat, bytesLoaded: nat, m: nat)
    requires it.Valid() && !it.started
    modifies it
    ensures forall i :: 0 <= i < m ==> !underPressure(i)
    ensures var items := Flatten(it.shards);
            && m <= |items| && sent == Loadable(items[..m])
            && (m == |items| || underPressure(m)
                || (items[m].readable && 2 * (bytesLoaded + |items[m].stored|) > maxMemoryMB * 1024 * 1024))
    ensures count == |sent| && bytesLoaded == SumBytes(sent) && 2 * bytesLoaded <= maxMemoryMB * 1024 * 1024
  {
    var batch;
    ghost var items := Flatten(it.shards);
    sent, batch, count, bytesLoaded, m := SendLoop(it, items, Budget(maxMemoryMB), batchSize, underPressure);
    sent, count := sent + batch, count + |batch|;
  }

  method SendLoop(it: L1Iterator, ghost items: seq<Item>, budget: nat, batchSize: nat, underPressure: nat -> bool)
    returns (sent: seq<Loaded>, batch: seq<Loaded>, count: nat, bytesLoaded: nat, m: nat)
    requires it.Valid() && !it.started && items == Flatten(it.shards)
    modifies it
    ensures Progress(items, m, budget, sent, batch, count, bytesLoaded)
    ensures StoppedAt(items, m, bytesLoaded, budget, underPressure) && Unpressed(underPressure, m)
  {
    sent, batch, count, bytesLoaded, m := [], [], 0, 0, 0;
    var more := FirstItem(it, items);
    while more
      invariant Progress(items, m, budget, sent, batch, count, bytesLoaded)
      invariant Unpressed(underPressure, m)
      invariant it.Valid() && more == (m < |items|) && (more ==> At(it, items, m))
      decreases |items| - m
    {
      if underPressure(m) {
        break;
      }
      var key := it.Key();
      var value := it.Value();
      var stop;
      stop, sent, batch, count, bytesLoaded := Consider(key, value, budget, batchSize, items, m, sent, batch, count, bytesLoaded);
      if stop {
        break;
      }
      more := NextItem(it, items, m);
      UnpressedNext(underPressure, m);
      m := m + 1;
    }
  }

  // ---------------------------------------------------------------- reads do not change

  /** What the workers and L0 do meanwhile, as in the protocol's own steps: load an L1 value, or evict. */
  datatype Effect = Load(l: Loaded) | Drop(key: Key)

  function Apply(maxPayload: nat, s: State, e: Effect): State {
    match e
    case Load(l) => Promoted(maxPayload, s, l.key, l.v)
    case Drop(k) => Dropped(s, k)
  }

  function ApplyAll(maxPayload: nat, s: State, es: seq<Effect>): State
    decreases es
  {
    if es == [] then s else ApplyAll(maxPayload, Apply(maxPayload, s, es[0]), es[1..])
  }

  ghost predicate FromL1(s: State, e: Effect) {
    e.Load? ==> e.l.key in s.l1 && s.l1[e.l.key] == e.l.v
  }

  /** L0 serves nothing under `k` that L1 does not hold. */
  ghost predicate Agrees(maxPayload: nat, s: State, k: Key) {
    k in s.l0 && |k| <= maxPayload ==> k in s.l1 && s.l1[k] == s.l0[k]
  }

  lemma {:induction false} LoadsKeepReads(maxPayload: nat, s: State, es: seq<Effect>)
    requires forall k :: Agrees(maxPayload, s, k)
    requires forall i :: 0 <= i < |es| ==> FromL1(s, es[i])
    ensures var t := ApplyAll(maxPayload, s, es);
            t.l1 == s.l1 && forall k :: Agrees(maxPayload, t, k) && ReadNow(maxPayload, t, k) == ReadNow(maxPayload, s, k)
    decreases es
  {
    if es != [] {
      var t := Apply(maxPayload, s, es[0]);
      assert FromL1(s, es[0]);
      forall k ensures Agrees(maxPayload, t, k) && ReadNow(maxPayload, t, k) == ReadNow(maxPayload, s, k) {
        assert Agrees(maxPayload, s, k);
      }
      forall i | 0 <= i < |es[1..]| ensures FromL1(t, es[1..][i]) {
        assert FromL1(s, es[i + 1]);
      }
      LoadsKeepReads(maxPayload, t, es[1..]);
    }
  }

  // ---------------------------------------------------------------- the map behind the iterator

  /** The map that the items denote. */
  function MapOf(items: seq<Item>): map<Key, Value> {
    if items == [] then map[]
    else
      var last := items[|items| - 1];
      MapOf(items[..|items| - 1])[last.key := last.stored]
  }

  lemma {:induction false} MapOfAt(items: seq<Item>, i: nat)
    requires Distinct(items) && i < |items|
    ensures items[i].key in MapOf(items) && MapOf(items)[items[i].key] == items[i].stored
  {
    if i < |items| - 1 {
      MapOfAt(items[..|items| - 1], i);
    }
  }

  /** What is loaded is what the map holds. */
  lemma {:induction false} LoadableIsStored(items: seq<Item>, m: nat, l: Loaded)
    requires Distinct(items) && m <= |items| && l in Loadable(items[..m])
    ensures l.key in MapOf(items) && MapOf(items)[l.key] == l.v
  {
    LoadableSnoc(items, m - 1);
    if l in Loadable(items[..m - 1]) {
      LoadableIsStored(items, m - 1, l);
    } else {
      MapOfAt(items, m - 1);
    }
  }

  /** What may happen to L0 meanwhile: entries sent are loaded, in any order and any number of times, and any key is evicted. */
  predicate Meanwhile(sent: seq<Loaded>, es: seq<Effect>) {
    forall i :: 0 <= i < |es| && es[i].Load? ==> es[i].l in sent
  }

  ghost predicate ReadsStay(maxPayload: nat, s: State, sent: seq<Loaded>) {
    forall es, k :: Meanwhile(sent, es) ==> ReadNow(maxPayload, ApplyAll(maxPayload, s, es), k) == ReadNow(maxPayload, s, k)
  }

  /**
   Pre-warming with no writers about: for what the loop sends (PreWarmL0), from shards that hold L1's
   map, every Get answers as before throughout exactly when L0 served nothing else to begin with.
   */
  lemma PreWarmKeepsReadsIff(maxPayload: nat, hash: Key -> nat, shards: seq<seq<Item>>, m: nat, s: State)
    requires |shards| > 0 && AtHome(hash, shards) && m <= |Flatten(shards)|
    requires s.l1 == MapOf(Flatten(shards))
    ensures ReadsStay(maxPayload, s, Loadable(Flatten(shards)[..m])) <==> forall k :: Agrees(maxPayload, s, k)
  {
    var items, sent := Flatten(shards), Loadable(Flatten(shards)[..m]);
    DropNothing(shards);
    EveryKeyOnce(hash, shards, 0);
    if forall k :: Agrees(maxPayload, s, k) {
      forall es: seq<Effect>, k | Meanwhile(sent, es) ensures ReadNow(maxPayload, ApplyAll(maxPayload, s, es), k) == ReadNow(maxPayload, s, k) {
        forall i | 0 <= i < |es| ensures FromL1(s, es[i]) {
          if es[i].Load? {
            LoadableIsStored(items, m, es[i].l);
          }
        }
        LoadsKeepReads(maxPayload, s, es);
      }
    } else {
      var k :| !Agrees(maxPayload, s, k);
      EvictionShows(maxPayload, s, sent, k);
    }
  }

  lemma EvictionShows(maxPayload: nat, s: State, sent: seq<Loaded>, k: Key)
    requires !Agrees(maxPayload, s, k)
    ensures !ReadsStay(maxPayload, s, sent)
  {
    var es := [Drop(k)];
    assert Meanwhile(sent, es) && es[1..] == [];
    assert ApplyAll(maxPayload, s, es) == Apply(maxPayload, s, Drop(k));
    assert ReadNow(maxPayload, ApplyAll(maxPayload, s, es), k) != ReadNow(maxPayload, s, k);
  }
}
