/**
 L0 snapshot files (pkg/l0/snapshot.go) as byte strings, and what restoring one does.

 The writer ends with a checksum; the reader has no entry count, takes the checksum for the next
 entry's length, and looks for the checksum only once the file is exhausted.
 */
module SnapshotFormat {
  import opened Bytes
  import opened Sequences
  import opened Totals
  import opened L0Spec
  import opened L0CacheSpec

  const MAGIC := 0x534E4150
  const VERSION := 1
  const WORD := 4

  /** The fields of a saved entry that restoring uses. */
  datatype Saved = Saved(key: string, value: seq<Byte>, ttl: int)

  /** JSON and CRC-32, kept abstract. */
  datatype Codec = Codec(
    marshal: Saved -> seq<Byte>,
    unmarshal: seq<Byte> -> Option<Saved>,
    header: (nat, nat) -> seq<Byte>,
    headerParses: seq<Byte> -> bool,
    crc: seq<Byte> -> nat)

  function Word(n: nat): (r: seq<Byte>)
    ensures |r| == WORD
  {
    BigEndian(n, WORD)
  }

  // ---------------------------------------------------------------- the file

  function Record(data: seq<Byte>): (r: seq<Byte>)
    ensures |r| == WORD + |data|
  {
    Word(|data|) + data
  }

  function Records(c: Codec, order: seq<Saved>): seq<Byte> {
    if order == [] then [] else Record(c.marshal(order[0])) + Records(c, order[1..])
  }

  /** The bytes the checksum covers. */
  function Payload(c: Codec, order: seq<Saved>): seq<Byte> {
    if order == [] then [] else c.marshal(order[0]) + Payload(c, order[1..])
  }

  function Preamble(header: seq<Byte>): seq<Byte> {
    Word(MAGIC) + Word(VERSION) + Word(|header|) + header
  }

  function SnapshotBytes(c: Codec, header: seq<Byte>, order: seq<Saved>): seq<Byte> {
    Preamble(header) + (Records(c, order) + Word(c.crc(Payload(c, order))))
  }

  // ---------------------------------------------------------------- restoring

  datatype Ending =
    | CacheClosed
    | BadPreamble
    | LengthUnreadable
    | EntryUnreadable
    | EntryUnparsable
    | ChecksumUnreadable
    | ChecksumMismatch
    | Restored

  /** The entries handed to Set, in order, and how the call ends. */
  datatype Restore = Restore(sets: seq<Saved>, ending: Ending)

  /** After the loop: the stored checksum is read from what is left. */
  function ReadChecksum(c: Codec, rest: seq<Byte>, hashed: seq<Byte>): Ending {
    if |rest| < WORD then ChecksumUnreadable
    else if FromBigEndian(rest[..WORD]) != c.crc(hashed) then ChecksumMismatch
    else Restored
  }

  function RestoreEntries(c: Codec, b: seq<Byte>, hashed: seq<Byte>): Restore
    decreases |b|
  {
    if |b| == 0 then Restore([], ReadChecksum(c, b, hashed))
    else if |b| < WORD then Restore([], LengthUnreadable)
    else
      var n := FromBigEndian(b[..WORD]);
      if |b| - WORD < n then Restore([], EntryUnreadable)
      else
        var data := b[WORD..WORD + n];
        match c.unmarshal(data)
        case None => Restore([], EntryUnparsable)
        case Some(e) =>
          var rest := RestoreEntries(c, b[WORD + n..], hashed + data);
          Restore([e] + rest.sets, rest.ending)
  }

  function RestoreFile(c: Codec, b: seq<Byte>): Restore {
    if |b| < 3 * WORD || FromBigEndian(b[..WORD]) != MAGIC || FromBigEndian(b[WORD..2 * WORD]) != VERSION then
      Restore([], BadPreamble)
    else
      var n := FromBigEndian(b[2 * WORD..3 * WORD]);
      if |b| - 3 * WORD < n || !c.headerParses(b[3 * WORD..3 * WORD + n]) then Restore([], BadPreamble)
      else RestoreEntries(c, b[3 * WORD + n..], [])
  }

  lemma {:induction false} LoopNeverRestores(c: Codec, b: seq<Byte>, hashed: seq<Byte>)
    ensures RestoreEntries(c, b, hashed).ending != Restored
    decreases |b|
  {
    if |b| >= WORD {
      var n := FromBigEndian(b[..WORD]);
      if n <= |b| - WORD {
        LoopNeverRestores(c, b[WORD + n..], hashed + b[WORD..WORD + n]);
      }
    }
  }

  /** No file whatever makes RestoreFromSnapshot return success: the checksum is sought past the end. */
  lemma RestoreNeverSucceeds(c: Codec, file: seq<Byte>)
    ensures RestoreFile(c, file).ending != Restored
  {
    if RestoreFile(c, file).ending != BadPreamble {
      var n := FromBigEndian(file[2 * WORD..3 * WORD]);
      LoopNeverRestores(c, file[3 * WORD + n..], []);
    }
  }

  // ---------------------------------------------------------------- round trip of the entries

  ghost predicate RoundTrips(c: Codec, e: Saved) {
    c.unmarshal(c.marshal(e)) == Some(e) && |c.marshal(e)| < Pow256(WORD)
  }

  lemma RecordHeader(data: seq<Byte>, rest: seq<Byte>)
    requires |data| < Pow256(WORD)
    ensures var b := Record(data) + rest;
            FromBigEndian(b[..WORD]) == |data| && b[WORD..WORD + |data|] == data && b[WORD + |data|..] == rest
  {
    DecodeEncode(|data|, WORD);
    assert (Record(data) + rest)[..WORD] == Word(|data|);
  }

  lemma RestoreRecord(c: Codec, e: Saved, rest: seq<Byte>, hashed: seq<Byte>)
    requires RoundTrips(c, e)
    ensures var r := RestoreEntries(c, rest, hashed + c.marshal(e));
            RestoreEntries(c, Record(c.marshal(e)) + rest, hashed) == Restore([e] + r.sets, r.ending)
  {
    RecordHeader(c.marshal(e), rest);
  }

  lemma RecordsCons(c: Codec, order: seq<Saved>, rest: seq<Byte>)
    requires order != []
    ensures Records(c, order) + rest == Record(c.marshal(order[0])) + (Records(c, order[1..]) + rest)
  {
  }

  lemma {:induction false} RestoreRecords(c: Codec, order: seq<Saved>, rest: seq<Byte>, hashed: seq<Byte>)
    requires forall e :: e in order ==> RoundTrips(c, e)
    ensures var r := RestoreEntries(c, rest, hashed + Payload(c, order));
            RestoreEntries(c, Records(c, order) + rest, hashed) == Restore(order + r.sets, r.ending)
    decreases order
  {
    if order == [] {
      NothingFirst(rest);
      AppendNothing(hashed);
      NothingFirst(RestoreEntries(c, rest, hashed).sets);
    } else {
      var e := order[0];
      RecordsCons(c, order, rest);
      RestoreRecord(c, e, Records(c, order[1..]) + rest, hashed);
      RestoreRecords(c, order[1..], rest, hashed + c.marshal(e));
      Associate(hashed, c.marshal(e), Payload(c, order[1..]));
      ConsAssociates(order, RestoreEntries(c, rest, hashed + Payload(c, order)).sets);
    }
  }

  /** The trailing checksum is read as an entry, and is none. */
  lemma ChecksumIsNoEntry(c: Codec, sum: nat, hashed: seq<Byte>)
    requires c.unmarshal([]) == None
    ensures RestoreEntries(c, Word(sum), hashed).sets == []
  {
    var b := Word(sum);
    assert |b| == WORD;
    if FromBigEndian(b[..WORD]) == 0 {
      assert b[WORD..WORD + 0] == [];
    }
  }

  lemma PreambleHeader(header: seq<Byte>, rest: seq<Byte>)
    requires |header| < Pow256(WORD)
    ensures var b := Preamble(header) + rest;
            && |b| == 3 * WORD + |header| + |rest|
            && FromBigEndian(b[..WORD]) == MAGIC && FromBigEndian(b[WORD..2 * WORD]) == VERSION
            && FromBigEndian(b[2 * WORD..3 * WORD]) == |header|
            && b[3 * WORD..3 * WORD + |header|] == header && b[3 * WORD + |header|..] == rest
  {
    Pow256Values();
    DecodeEncode(MAGIC, WORD);
    DecodeEncode(VERSION, WORD);
    DecodeEncode(|header|, WORD);
    var b := Preamble(header) + rest;
    assert b[..WORD] == Word(MAGIC);
    assert b[WORD..2 * WORD] == Word(VERSION);
    assert b[2 * WORD..3 * WORD] == Word(|header|);
  }

  /** Restoring a written file issues exactly one Set per saved entry, in file order. */
  lemma RestoreIssuesEveryEntry(c: Codec, header: seq<Byte>, order: seq<Saved>)
    requires |header| < Pow256(WORD) && c.headerParses(header) && c.unmarshal([]) == None
    requires forall e :: e in order ==> RoundTrips(c, e)
    ensures RestoreFile(c, SnapshotBytes(c, header, order)).sets == order
  {
    var sum := Word(c.crc(Payload(c, order)));
    PreambleHeader(header, Records(c, order) + sum);
    RestoreRecords(c, order, sum, []);
    ChecksumIsNoEntry(c, c.crc(Payload(c, order)), [] + Payload(c, order));
    AppendNothing(order);
  }

  // ---------------------------------------------------------------- damaged files

  /** The preamble in front of any records, then anything. */
  lemma RestoreAfter(c: Codec, header: seq<Byte>, order: seq<Saved>, rest: seq<Byte>)
    requires |header| < Pow256(WORD) && c.headerParses(header) && forall e :: e in order ==> RoundTrips(c, e)
    ensures var r := RestoreEntries(c, rest, Payload(c, order));
            RestoreFile(c, Preamble(header) + (Records(c, order) + rest)) == Restore(order + r.sets, r.ending)
  {
    PreambleHeader(header, Records(c, order) + rest);
    RestoreRecords(c, order, rest, []);
    NothingFirst(Payload(c, order));
  }

  /** The first entry that does not parse ends the restoring: what came before is set, what comes after is not. */
  lemma UnparsableEndsIt(c: Codec, header: seq<Byte>, order: seq<Saved>, bad: seq<Byte>, rest: seq<Byte>)
    requires |header| < Pow256(WORD) && c.headerParses(header) && forall e :: e in order ==> RoundTrips(c, e)
    requires |bad| < Pow256(WORD) && c.unmarshal(bad) == None
    ensures RestoreFile(c, Preamble(header) + (Records(c, order) + (Record(bad) + rest))) == Restore(order, EntryUnparsable)
  {
    RestoreAfter(c, header, order, Record(bad) + rest);
    RecordHeader(bad, rest);
    AppendNothing(order);
  }

  /** So does a length cut short, or one that promises more bytes than follow. */
  lemma CutShortEndsIt(c: Codec, header: seq<Byte>, order: seq<Saved>, rest: seq<Byte>)
    requires |header| < Pow256(WORD) && c.headerParses(header) && forall e :: e in order ==> RoundTrips(c, e)
    ensures 0 < |rest| < 4 ==>
              RestoreFile(c, Preamble(header) + (Records(c, order) + rest)) == Restore(order, LengthUnreadable)
    ensures |rest| >= 4 && |rest| < 4 + FromBigEndian(rest[..4]) ==>
              RestoreFile(c, Preamble(header) + (Records(c, order) + rest)) == Restore(order, EntryUnreadable)
    ensures |rest| == 0 ==>
              RestoreFile(c, Preamble(header) + (Records(c, order) + rest)) == Restore(order, ChecksumUnreadable)
  {
    RestoreAfter(c, header, order, rest);
    AppendNothing(order);
  }

  /** A written file, whole: its checksum is taken for the length of one more entry. */
  lemma WrittenFileEnding(c: Codec, header: seq<Byte>, order: seq<Saved>)
    requires |header| < Pow256(WORD) && c.headerParses(header) && forall e :: e in order ==> RoundTrips(c, e)
    requires c.crc(Payload(c, order)) < Pow256(WORD) && c.unmarshal([]) == None
    ensures RestoreFile(c, SnapshotBytes(c, header, order))
            == Restore(order, if c.crc(Payload(c, order)) == 0 then EntryUnparsable else EntryUnreadable)
  {
    var sum := c.crc(Payload(c, order));
    DecodeEncode(sum, WORD);
    RestoreAfter(c, header, order, Word(sum));
    AppendNothing(order);
    assert Word(sum)[..WORD] == Word(sum);
    assert Word(sum)[WORD..WORD] == [];
  }

  /** The file is a magic number, version 1 and a whole header that parses, and then `rest`. */
  ghost predicate Begins(c: Codec, file: seq<Byte>, header: seq<Byte>, rest: seq<Byte>) {
    && |header| < Pow256(WORD) && c.headerParses(header)
    && file == BigEndian(0x534E4150, 4) + BigEndian(1, 4) + BigEndian(|header|, 4) + header + rest
  }

  lemma BegunFile(c: Codec, file: seq<Byte>, header: seq<Byte>, rest: seq<Byte>)
    requires Begins(c, file, header, rest)
    ensures RestoreFile(c, file) == RestoreEntries(c, rest, []) && RestoreFile(c, file).ending != BadPreamble
  {
    PreambleHeader(header, rest);
    assert file == Preamble(header) + rest;
    NoBadPreamble(c, rest, []);
  }

  lemma FileBegins(c: Codec, file: seq<Byte>) returns (header: seq<Byte>, rest: seq<Byte>)
    requires RestoreFile(c, file) != Restore([], BadPreamble)
    ensures Begins(c, file, header, rest)
  {
    var n := FromBigEndian(file[2 * WORD..3 * WORD]);
    header, rest := file[3 * WORD..3 * WORD + n], file[3 * WORD + n..];
    EncodeDecode(file[..WORD]);
    EncodeDecode(file[WORD..2 * WORD]);
    EncodeDecode(file[2 * WORD..3 * WORD]);
    CutInFive(file, WORD, 2 * WORD, 3 * WORD, 3 * WORD + n);
  }

  /** Nothing is set, and the beginning is reported bad, exactly when the file does not begin as a snapshot. */
  lemma BadPreambleIff(c: Codec, file: seq<Byte>)
    ensures RestoreFile(c, file) == Restore([], BadPreamble) <==> !(exists header, rest :: Begins(c, file, header, rest))
    ensures RestoreFile(c, file).ending == BadPreamble ==> RestoreFile(c, file).sets == []
  {
    if header, rest :| Begins(c, file, header, rest) {
      BegunFile(c, file, header, rest);
    } else if RestoreFile(c, file) != Restore([], BadPreamble) {
      var header, rest := FileBegins(c, file);
    }
  }

  lemma {:induction false} NoBadPreamble(c: Codec, b: seq<Byte>, hashed: seq<Byte>)
    ensures RestoreEntries(c, b, hashed).ending != BadPreamble
    decreases |b|
  {
    if |b| >= WORD {
      var n := FromBigEndian(b[..WORD]);
      if n <= |b| - WORD {
        NoBadPreamble(c, b[WORD + n..], hashed + b[WORD..WORD + n]);
      }
    }
  }

  // ---------------------------------------------------------------- into an empty cache

  /** The map a list of saved entries denotes. */
  function AsMap(order: seq<Saved>): map<string, Entry> {
    if order == [] then map[]
    else
      var last := order[|order| - 1];
      AsMap(order[..|order| - 1])[last.key := NewEntry(last.value, last.ttl)]
  }

  predicate DistinctKeys(order: seq<Saved>) {
    forall i, j :: 0 <= i < j < |order| ==> order[i].key != order[j].key
  }

  /** The list names every entry of the map once. */
  ghost predicate Enumerates(order: seq<Saved>, m: map<string, Entry>) {
    DistinctKeys(order) && AsMap(order) == m
  }

  ghost function SetAll(h: Hash, c: Config, cs: seq<Shard>, order: seq<Saved>): seq<Shard>
    requires CacheValid(h, cs)
    ensures CacheValid(h, SetAll(h, c, cs, order))
    ensures |SetAll(h, c, cs, order)| == |cs|
  {
    if order == [] then cs
    else
      var last := order[|order| - 1];
      var before := SetAll(h, c, cs, order[..|order| - 1]);
      CacheSetKeepsValid(h, c, before, last.key, last.value, last.ttl);
      CacheSet(h, c, before, last.key, last.value, last.ttl)
  }

  lemma {:induction false} AsMapKeys(order: seq<Saved>)
    ensures forall k :: k in AsMap(order) <==> exists i :: 0 <= i < |order| && order[i].key == k
  {
    if order != [] {
      var front := order[..|order| - 1];
      AsMapKeys(front);
      forall k ensures k in AsMap(order) <==> exists i :: 0 <= i < |order| && order[i].key == k {
        if i :| 0 <= i < |front| && front[i].key == k {
          assert order[i].key == k;
        }
        if i :| 0 <= i < |order| && order[i].key == k && i < |front| {
          assert front[i].key == k;
        }
      }
    }
  }

  lemma SetAllSnoc(h: Hash, c: Config, cs: seq<Shard>, order: seq<Saved>, e: Saved)
    requires CacheValid(h, cs)
    ensures SetAll(h, c, cs, order + [e]) == CacheSet(h, c, SetAll(h, c, cs, order), e.key, e.value, e.ttl)
  {
    assert (order + [e])[..|order|] == order;
  }

  lemma SkipOne(h: Hash, c: Config, cs: seq<Shard>, order: seq<Saved>, bad: Saved)
    requires CacheValid(h, cs) && (bad.key == "" || bad.value == [] || |bad.value| > c.maxPayload)
    ensures SetAll(h, c, cs, order + [bad]) == SetAll(h, c, cs, order)
  {
    SetAllSnoc(h, c, cs, order, bad);
  }

  /** An entry that Set rejects is skipped, and those after it are set all the same. */
  lemma {:induction false} RejectedIsSkipped(h: Hash, c: Config, cs: seq<Shard>, order: seq<Saved>, bad: Saved, more: seq<Saved>)
    requires CacheValid(h, cs) && (bad.key == "" || bad.value == [] || |bad.value| > c.maxPayload)
    ensures SetAll(h, c, cs, order + [bad] + more) == SetAll(h, c, cs, order + more)
  {
    if more == [] {
      AppendNothing(order + [bad]);
      AppendNothing(order);
      SkipOne(h, c, cs, order, bad);
    } else {
      var front, last := more[..|more| - 1], more[|more| - 1];
      RejectedIsSkipped(h, c, cs, order, bad, front);
      assert more == front + [last];
      Associate(order + [bad], front, [last]);
      Associate(order, front, [last]);
      SetAllSnoc(h, c, cs, order + [bad] + front, last);
      SetAllSnoc(h, c, cs, order + front, last);
    }
  }

  /** A source whose shards each fit the limit and hold only storable values. */
  ghost predicate FitsIn(h: Hash, c: Config, source: seq<Shard>) {
    && CacheValid(h, source)
    && (forall i :: 0 <= i < |source| ==> source[i].used <= ShardLimit(c, |source|))
    && (forall k :: k in Contents(source) ==> |Contents(source)[k].value| <= c.maxPayload)
  }

  /** A part of the whole map is, shard by shard, part of each shard's map. */
  lemma SubMapAtHome(h: Hash, source: seq<Shard>, cs: seq<Shard>, i: nat)
    requires KeysAtHome(h, source) && KeysAtHome(h, cs) && |cs| == |source| && i < |cs|
    requires SubMap(Contents(cs), Contents(source))
    ensures SubMap(cs[i].entries, source[i].entries)
  {
    forall k | k in cs[i].entries ensures k in source[i].entries && source[i].entries[k] == cs[i].entries[k] {
      assert IndexOf(h, |cs|, k) == i;
      ContentsAt(h, cs, k);
      ContentsAt(h, source, k);
    }
  }

  lemma OneMoreFits(mine: map<string, Entry>, theirs: map<string, Entry>, key: string, entry: Entry)
    requires SubMap(mine, theirs) && key !in mine && key in theirs && theirs[key] == entry
    ensures Total(mine, SizeOf) + entry.size <= Total(theirs, SizeOf)
  {
    assert SubMap(mine[key := entry], theirs);
    TotalSubMap(mine[key := entry], theirs, SizeOf);
    TotalAdd(mine, SizeOf, key, entry);
  }

  /** Room for one more of the source's entries: weights are at most sizes, so nothing is evicted. */
  lemma RoomForNext(h: Hash, c: Config, source: seq<Shard>, cs: seq<Shard>, e: Saved)
    requires FitsIn(h, c, source) && CacheValid(h, cs) && |cs| == |source|
    requires SubMap(Contents(cs), Contents(source))
    requires e.key in Contents(source) && Contents(source)[e.key] == NewEntry(e.value, e.ttl) && e.key !in Contents(cs)
    ensures SetError(c, e.key, e.value).None?
    ensures cs[IndexOf(h, |cs|, e.key)].used + NewEntry(e.value, e.ttl).weight <= ShardLimit(c, |cs|)
  {
    var i, entry := IndexOf(h, |cs|, e.key), NewEntry(e.value, e.ttl);
    ContentsAt(h, source, e.key);
    ContentsAt(h, cs, e.key);
    var mine, theirs := cs[i].entries, source[i].entries;
    SubMapAtHome(h, source, cs, i);
    OneMoreFits(mine, theirs, e.key, entry);
    EntryUnits(entry);
  }

  lemma {:induction false} SetAllRestores(h: Hash, c: Config, source: seq<Shard>, empty: seq<Shard>, order: seq<Saved>)
    requires FitsIn(h, c, source) && CacheValid(h, empty) && |empty| == |source| && Contents(empty) == map[]
    requires DistinctKeys(order) && SubMap(AsMap(order), Contents(source))
    ensures Contents(SetAll(h, c, empty, order)) == AsMap(order)
    decreases order
  {
    if order != [] {
      var front, e := order[..|order| - 1], order[|order| - 1];
      AsMapKeys(front);
      forall i | 0 <= i < |front| ensures front[i].key != e.key {
        assert front[i] == order[i];
      }
      assert SubMap(AsMap(front), AsMap(order));
      SetAllRestores(h, c, source, empty, front);
      var cs := SetAll(h, c, empty, front);
      RoomForNext(h, c, source, cs, e);
      SetWithRoom(h, c, cs, e.key, e.value, e.ttl);
    }
  }

  /**
   Snapshot round trip on contents: a file written from a cache that fits, restored into an empty
   cache of the same shape, gives the same map of keys to values and TTLs, although the call reports
   an error.
   */
  lemma SnapshotRoundTrip(codec: Codec, h: Hash, c: Config, source: seq<Shard>, empty: seq<Shard>, header: seq<Byte>, order: seq<Saved>)
    requires FitsIn(h, c, source) && CacheValid(h, empty) && |empty| == |source| && Contents(empty) == map[]
    requires Enumerates(order, Contents(source)) && forall e :: e in order ==> RoundTrips(codec, e)
    requires |header| < Pow256(WORD) && codec.headerParses(header) && codec.unmarshal([]) == None
    ensures var r := RestoreFile(codec, SnapshotBytes(codec, header, order));
            && Contents(SetAll(h, c, empty, r.sets)) == Contents(source)
            && r.ending != Restored
  {
    RestoreIssuesEveryEntry(codec, header, order);
    RestoreNeverSucceeds(codec, SnapshotBytes(codec, header, order));
    SetAllRestores(h, c, source, empty, order);
  }
}
