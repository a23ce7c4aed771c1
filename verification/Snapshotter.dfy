/** Writing and restoring snapshots of an L0 cache object (pkg/l0/snapshot.go), step by step over the bytes. */
module Snapshotter {
  import opened Bytes
  import opened Sequences
  import Spec = L0Spec
  import opened L0CacheSpec
  import opened SnapshotFormat
  import Sums = Totals
  import L0Cache

  /** The file holds the cache's entries in the given order, under a header with their count and memory. */
  ghost predicate SnapshotOf(c: Codec, cs: seq<Spec.Shard>, bytes: seq<Byte>, order: seq<Saved>) {
    Enumerates(order, Contents(cs)) && bytes == SnapshotBytes(c, c.header(SumEntries(cs), SumUsed(cs)), order)
  }

  /** It begins with magic, version and a header of the number of entries and their bytes, and ends with the entries' checksum. */
  ghost predicate Framed(c: Codec, m: map<string, Spec.Entry>, bytes: seq<Byte>, order: seq<Saved>) {
    var header := c.header(|m|, Sums.Total(m, Spec.SizeOf));
    && BigEndian(0x534E4150, 4) + BigEndian(1, 4) + BigEndian(|header|, 4) + header <= bytes
    && |bytes| >= 4 && bytes[|bytes| - 4..] == BigEndian(c.crc(Payload(c, order)), 4)
  }

  ghost predicate Written(c: Codec, cs: seq<Spec.Shard>, bytes: seq<Byte>, order: seq<Saved>) {
    SnapshotOf(c, cs, bytes, order) && Framed(c, Contents(cs), bytes, order)
  }

  lemma SnapshotIsFramed(c: Codec, h: Hash, cs: seq<Spec.Shard>, bytes: seq<Byte>, order: seq<Saved>)
    requires CacheValid(h, cs) && SnapshotOf(c, cs, bytes, order)
    ensures Framed(c, Contents(cs), bytes, order)
  {
    StatsDescribeTheMap(h, cs);
    BytesAreFramed(c, c.header(SumEntries(cs), SumUsed(cs)), order);
  }

  lemma BytesAreFramed(c: Codec, header: seq<Byte>, order: seq<Saved>)
    ensures var bytes := SnapshotBytes(c, header, order);
            && BigEndian(0x534E4150, 4) + BigEndian(1, 4) + BigEndian(|header|, 4) + header <= bytes
            && |bytes| >= 4 && bytes[|bytes| - 4..] == BigEndian(c.crc(Payload(c, order)), 4)
  {
    Associate(Preamble(header), Records(c, order), Word(c.crc(Payload(c, order))));
  }

  function Assemble(c: Codec, entries: nat, memory: nat, records: seq<Byte>, hashed: seq<Byte>): seq<Byte> {
    Preamble(c.header(entries, memory)) + (records + Word(c.crc(hashed)))
  }

  lemma Assembled(c: Codec, cs: seq<Spec.Shard>, entries: nat, memory: nat, records: seq<Byte>, hashed: seq<Byte>,
                  bytes: seq<Byte>, order: seq<Saved>)
    requires Enumerates(order, Contents(cs)) && records == Records(c, order) && hashed == Payload(c, order)
    requires entries == SumEntries(cs) && memory == SumUsed(cs) && bytes == Assemble(c, entries, memory, records, hashed)
    ensures SnapshotOf(c, cs, bytes, order)
  {
  }

  class Snapshots {
    const codec: Codec
    const cache: L0Cache.Cache
    var snapshotting: bool

    constructor (codec: Codec, cache: L0Cache.Cache)
      ensures this.codec == codec && this.cache == cache && !snapshotting
    {
      this.codec, this.cache, snapshotting := codec, cache, false;
    }

    /** The bytes of the file it leaves behind, or None: nothing is written while the flag is set. */
    method WriteSnapshot() returns (file: Option<seq<Byte>>, ghost order: seq<Saved>)
      requires cache.Valid()
      modifies this`snapshotting
      ensures old(snapshotting) ==> file == None && snapshotting
      ensures !old(snapshotting) ==> !snapshotting && file.Some? && Written(codec, cache.Shards(), file.value, order)
    {
      order := [];
      if snapshotting {
        return None, [];
      }
      ghost var all := cache.Shards();
      snapshotting := true;
      var bytes;
      bytes, order := FileBytes(all);
      snapshotting := false;
      assert cache.Shards() == all;
      return Some(bytes), order;
    }

    method FileBytes(ghost all: seq<Spec.Shard>) returns (bytes: seq<Byte>, ghost order: seq<Saved>)
      requires cache.Valid() && all == cache.Shards()
      ensures Written(codec, all, bytes, order)
    {
      var entries, memory := Totals(all);
      var records, hashed;
      records, hashed, order := WriteEntries(all);
      bytes := Assemble(codec, entries, memory, records, hashed);
      Assembled(codec, all, entries, memory, records, hashed, bytes, order);
      SnapshotIsFramed(codec, cache.hash, all, bytes, order);
    }

    method Totals(ghost all: seq<Spec.Shard>) returns (entries: nat, memory: nat)
      requires cache.Valid() && all == cache.Shards()
      ensures entries == SumEntries(all) && memory == SumUsed(all)
    {
      entries, memory := 0, 0;
      for i := 0 to |cache.shards|
        invariant entries == SumEntries(all[..i]) && memory == SumUsed(all[..i])
      {
        assert all[i] == cache.shards[i].State();
        SumsSnoc(all, i);
        entries := entries + |cache.shards[i].entries|;
        memory := memory + cache.shards[i].usedMemory;
      }
      assert all[..|all|] == all;
    }

    /** Each shard's map in some order; Go's iteration order is unspecified. */
    method WriteEntries(ghost all: seq<Spec.Shard>) returns (records: seq<Byte>, hashed: seq<Byte>, ghost order: seq<Saved>)
      requires cache.Valid() && all == cache.Shards()
      ensures Enumerates(order, Contents(all))
      ensures records == Records(codec, order) && hashed == Payload(codec, order)
    {
      records, hashed, order := [], [], [];
      HomeIsDisjoint(cache.hash, all);
      for i := 0 to |cache.shards|
        invariant Enumerates(order, Contents(all[..i]))
        invariant records == Records(codec, order) && hashed == Payload(codec, order)
      {
        var m := cache.shards[i].entries;
        assert Spec.Valid(all[i]) && all[i].entries == m;
        PrefixApart(all, i);
        records, hashed, order := WriteMap(m, records, hashed, order, Contents(all[..i]));
        ContentsSnoc(all, i);
      }
      assert all[..|all|] == all;
    }

    /** Appends one shard's entries. */
    method WriteMap(m: map<string, Spec.Entry>, records: seq<Byte>, hashed: seq<Byte>, ghost order: seq<Saved>,
                    ghost before: map<string, Spec.Entry>)
      returns (records': seq<Byte>, hashed': seq<Byte>, ghost order': seq<Saved>)
      requires Enumerates(order, before) && before.Keys !! m.Keys
      requires forall k :: k in m ==> Spec.WellFormed(m[k])
      requires records == Records(codec, order) && hashed == Payload(codec, order)
      ensures Enumerates(order', before + m)
      ensures records' == Records(codec, order') && hashed' == Payload(codec, order')
    {
      records', hashed', order' := records, hashed, order;
      var keys := m.Keys;
      Restricted(before, m, {});
      while keys != {}
        invariant keys <= m.Keys
        invariant Enumerates(order', before + Only(m, m.Keys - keys))
        invariant records' == Records(codec, order') && hashed' == Payload(codec, order')
        decreases |keys|
      {
        var k :| k in keys;
        var e := Saved(k, m[k].value, m[k].ttl);
        var data := codec.marshal(e);
        RecordsSnoc(codec, order', e);
        AddEntry(order', e, before, m, m.Keys - keys);
        assert m.Keys - (keys - {k}) == m.Keys - keys + {k};
        records', hashed', order' := records' + Record(data), hashed' + data, order' + [e];
        keys := keys - {k};
      }
      Restricted(before, m, m.Keys - keys);
    }

    /** The timer's entry point raises the flag and then calls the writer, which sees it raised. */
    method Snapshot() returns (file: Option<seq<Byte>>)
      requires cache.Valid()
      modifies this`snapshotting
      ensures file == None && snapshotting == old(snapshotting)
    {
      if snapshotting {
        return None;
      }
      snapshotting := true;

      ghost var order;
      file, order := WriteSnapshot();
      snapshotting := false;
    }

    /** Restores what it can into the cache; whatever the file, it reports an error. */
    method RestoreFromSnapshot(file: seq<Byte>) returns (ending: Ending)
      requires cache.Valid()
      modifies cache, cache.shards, cache.Arrays()
      ensures cache.Valid() && ending != Restored
      ensures old(cache.closed) ==> ending == CacheClosed && cache.Shards() == old(cache.Shards())
      ensures !old(cache.closed) ==>
                && ending == RestoreFile(codec, file).ending
                && cache.Shards() == SetAll(cache.hash, cache.config, old(cache.Shards()), RestoreFile(codec, file).sets)
    {
      if cache.closed {
        return CacheClosed;
      }
      RestoreNeverSucceeds(codec, file);
      if |file| < 3 * WORD || FromBigEndian(file[..WORD]) != MAGIC || FromBigEndian(file[WORD..2 * WORD]) != VERSION {
        return BadPreamble;
      }
      var n := FromBigEndian(file[2 * WORD..3 * WORD]);
      if |file| - 3 * WORD < n || !codec.headerParses(file[3 * WORD..3 * WORD + n]) {
        return BadPreamble;
      }
      ending := RestoreLoop(file[3 * WORD + n..]);
    }

    /** One restored entry; an error of Set is only logged. */
    method SetOne(e: Saved, ghost start: seq<Spec.Shard>, ghost done: seq<Saved>)
      requires cache.Valid() && !cache.closed && CacheValid(cache.hash, start)
      requires cache.Shards() == SetAll(cache.hash, cache.config, start, done)
      modifies cache, cache.shards, cache.Arrays()
      ensures cache.Valid() && !cache.closed && cache.Arrays() == old(cache.Arrays())
      ensures cache.Shards() == SetAll(cache.hash, cache.config, start, done + [e])
    {
      SetAllSnoc(cache.hash, cache.config, start, done, e);
      var _ := cache.Set(e.key, e.value, e.ttl);
    }

    method RestoreLoop(body: seq<Byte>) returns (ending: Ending)
      requires cache.Valid() && !cache.closed
      modifies cache, cache.shards, cache.Arrays()
      ensures cache.Valid()
      ensures ending == RestoreEntries(codec, body, []).ending
      ensures cache.Shards() == SetAll(cache.hash, cache.config, old(cache.Shards()), RestoreEntries(codec, body, []).sets)
    {
      ghost var start, goal := cache.Shards(), RestoreEntries(codec, body, []);
      ghost var done: seq<Saved> := [];
      ghost var arrays := cache.Arrays();
      var rest, hashed: seq<Byte> := body, [];
      NothingFirst(goal.sets);
      while true
        invariant cache.Valid() && !cache.closed && cache.Arrays() == arrays
        invariant cache.Shards() == SetAll(cache.hash, cache.config, start, done)
        invariant goal.sets == done + RestoreEntries(codec, rest, hashed).sets
        invariant goal.ending == RestoreEntries(codec, rest, hashed).ending
        decreases |rest|
      {
        AppendNothing(done);
        if |rest| == 0 {
          break;
        }
        if |rest| < WORD {
          return LengthUnreadable;
        }
        var n := FromBigEndian(rest[..WORD]);
        if |rest| - WORD < n {
          return EntryUnreadable;
        }
        var data := rest[WORD..WORD + n];
        var e := codec.unmarshal(data);
        if e.None? {
          return EntryUnparsable;
        }
        Associate(done, [e.value], RestoreEntries(codec, rest[WORD + n..], hashed + data).sets);
        hashed, rest := hashed + data, rest[WORD + n..];
        SetOne(e.value, start, done);
        done := done + [e.value];
      }
      return ReadChecksum(codec, rest, hashed);
    }
  }

  // ---------------------------------------------------------------- one more entry

  function Only<K, V>(m: map<K, V>, ks: set<K>): map<K, V> {
    map k | k in m && k in ks :: m[k]
  }

  lemma Restricted<K, V>(before: map<K, V>, m: map<K, V>, ks: set<K>)
    ensures ks == {} ==> before + Only(m, ks) == before
    ensures ks == m.Keys ==> Only(m, ks) == m
  {
  }

  lemma {:induction false} RecordsSnoc(c: Codec, order: seq<Saved>, e: Saved)
    ensures Records(c, order + [e]) == Records(c, order) + Record(c.marshal(e))
    ensures Payload(c, order + [e]) == Payload(c, order) + c.marshal(e)
  {
    if order != [] {
      RecordsSnoc(c, order[1..], e);
      assert (order + [e])[1..] == order[1..] + [e];
    }
  }

  lemma PrefixApart(cs: seq<Spec.Shard>, i: nat)
    requires Disjoint(cs) && i < |cs|
    ensures Contents(cs[..i]).Keys !! cs[i].entries.Keys
  {
    assert cs[..i + 1][..i] == cs[..i];
    assert forall j :: 0 <= j <= i ==> cs[..i + 1][j] == cs[j];
    FrontApart(cs[..i + 1]);
  }

  lemma ContentsSnoc(cs: seq<Spec.Shard>, i: nat)
    requires i < |cs|
    ensures Contents(cs[..i + 1]) == Contents(cs[..i]) + cs[i].entries
  {
    assert cs[..i + 1][..i] == cs[..i];
  }

  lemma AddEntry(order: seq<Saved>, e: Saved, before: map<string, Spec.Entry>, m: map<string, Spec.Entry>, done: set<string>)
    requires Enumerates(order, before + Only(m, done)) && before.Keys !! m.Keys
    requires e.key in m && e.key !in done && m[e.key] == Spec.NewEntry(e.value, e.ttl)
    ensures Enumerates(order + [e], before + Only(m, done + {e.key}))
  {
    assert (order + [e])[..|order|] == order;
    AsMapKeys(order);
    OnlyMore(before, m, done, e.key);
  }

  lemma OnlyMore<K, V>(before: map<K, V>, m: map<K, V>, done: set<K>, k: K)
    requires k in m
    ensures before + Only(m, done + {k}) == (before + Only(m, done))[k := m[k]]
  {
  }
}
