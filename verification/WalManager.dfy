/**
 The recovery manager (pkg/replay/recovery.go): numbering and appending entries, checkpoint
 files, the replay loop with its corruption counters, and `Recover` with its worker pool.
 */
module WalManager {
  import opened Bytes
  import opened Sequences
  import opened WalFormat
  import opened ReplayPool
  import opened PoolSchedules

  const DEFAULT_WORKERS := 4
  const DEFAULT_INTERVAL := 10000

  /** WALEntryChannelBuffer, ErrorChannelBuffer, and a nil offered before every entry. */
  const RECOVERY_CHANNELS := Channels(100, 10, true)

  /** How the operating system answered an append: all of it, or an error after some bytes. */
  datatype Append = Complete | Broken(landed: nat)

  /** The entry as `Write` stamps it; the checksum is computed with the monotonic reading still there. */
  function Stamp(c: Codec, last: nat, e: WalEntry, now: Timestamp): (r: WalEntry)
    ensures r.sequence == last + 1 && r.timestamp == now && VerifyChecksum(c, r)
    ensures r == e.(sequence := r.sequence, timestamp := r.timestamp, checksum := r.checksum)
  {
    var stamped := e.(sequence := last + 1, timestamp := now);
    stamped.(checksum := ComputeChecksum(c, stamped))
  }

  function Least(a: nat, b: nat): nat {
    if a < b then a else b
  }

  /** The bytes a call to `Write` adds to the log, whatever it returns. */
  function Landed(c: Codec, stamped: WalEntry, io: Append): (r: seq<Byte>)
    ensures c.marshal(stamped).None? ==> r == []
    ensures c.marshal(stamped).Some? ==> r <= Frame(c.marshal(stamped).value)
    ensures c.marshal(stamped).Some? ==>
              |r| == if io.Broken? then Least(io.landed, 8 + |c.marshal(stamped).value|) else 8 + |c.marshal(stamped).value|
  {
    match c.marshal(stamped)
    case None => []
    case Some(data) =>
      var frame := Frame(data);
      if io.Broken? && io.landed < |frame| then frame[..io.landed] else frame
  }

  predicate WriteSucceeds(c: Codec, stamped: WalEntry, io: Append) {
    c.marshal(stamped).Some? && io.Complete?
  }

  /** The largest sequence number of a readable checkpoint file, 0 if there is none. */
  function Latest(files: seq<Option<nat>>): (r: nat)
    ensures forall n :: Some(n) in files ==> n <= r
    ensures r == 0 || Some(r) in files
  {
    if files == [] then 0
    else
      var rest := Latest(files[..|files| - 1]);
      match files[|files| - 1]
      case None => rest
      case Some(n) => if n > rest then n else rest
  }

  /** Some frame of the log holds `e`; it verifies, is numbered, and exceeds every readable checkpoint, if they are kept. */
  ghost predicate Due(c: Codec, log: seq<Byte>, keeps: bool, files: seq<Option<nat>>, e: WalEntry) {
    && (exists i :: 0 <= i < |Parse(log).frames| && c.unmarshal(Parse(log).frames[i]) == Some(e))
    && e.checksum == ComputeChecksum(c, e) && e.sequence > 0
    && (keeps ==> forall n :: Some(n) in files ==> e.sequence > n)
  }

  /** These and no others. */
  ghost predicate AreDue(c: Codec, log: seq<Byte>, keeps: bool, files: seq<Option<nat>>, es: seq<WalEntry>) {
    forall e :: e in es <==> Due(c, log, keeps, files, e)
  }

  lemma DueIff(c: Codec, log: seq<Byte>, keeps: bool, files: seq<Option<nat>>, checkpoint: nat)
    requires checkpoint == if keeps then Latest(files) else 0
    ensures AreDue(c, log, keeps, files, ReplayOf(c, checkpoint, log).entries)
  {
    forall e ensures e in ReplayOf(c, checkpoint, log).entries <==> Due(c, log, keeps, files, e) {
      HandedOutIff(c, checkpoint, Parse(log).frames, e);
      assert e.sequence > Latest(files) <==> e.sequence > 0 && forall n :: Some(n) in files ==> e.sequence > n;
    }
  }

  /** The sequence number after `Recover`: that of the last accepted entry, or what it was. */
  function Resumed(before: nat, accepted: seq<WalEntry>): nat {
    if |accepted| > 0 then accepted[|accepted| - 1].sequence else before
  }

  /** The accepted entries as the pool's job, for any apply function. */
  function EntryJob<S>(entries: seq<WalEntry>, start: S, apply: (S, WalEntry) -> (S, bool)): Job<S> {
    Job(|entries|, start, (t: S, i: nat) => if i < |entries| then apply(t, entries[i]) else (t, false), RECOVERY_CHANNELS)
  }

  /** What `Recover` reports; an error is named by the entry whose application failed. */
  datatype RecoveryResult = RecoveryResult(replayed: nat, skipped: nat, corrupted: nat, errors: seq<nat>, success: bool)

  class RecoveryManager {
    const codec: Codec
    const workers: nat
    const interval: nat
    const keepsCheckpoints: bool
    var sequence: nat
    var closed: bool
    var wal: seq<Byte>
    var checkpointFiles: seq<Option<nat>>  // None: a file that cannot be read or parsed
    var skippedEntries: nat
    var corruptedSize: nat

    /** A fresh process over existing files; non-positive settings are replaced by the defaults. */
    constructor (codec: Codec, workers: int, interval: int, keepsCheckpoints: bool, wal: seq<Byte>, files: seq<Option<nat>>)
      ensures this.codec == codec && this.keepsCheckpoints == keepsCheckpoints
      ensures this.workers == if workers > 0 then workers else 4
      ensures this.interval == if interval > 0 then interval else 10000
      ensures sequence == 0 && !closed && this.wal == wal && checkpointFiles == files
      ensures skippedEntries == 0 && corruptedSize == 0
    {
      this.codec, this.keepsCheckpoints := codec, keepsCheckpoints;
      this.workers := if workers > 0 then workers else DEFAULT_WORKERS;
      this.interval := if interval > 0 then interval else DEFAULT_INTERVAL;
      sequence, closed, this.wal, checkpointFiles := 0, false, wal, files;
      skippedEntries, corruptedSize := 0, 0;
    }

    method Write(e: WalEntry, now: Timestamp, io: Append) returns (ok: bool, stamped: WalEntry, due: bool)
      requires interval > 0
      modifies this`sequence, this`wal
      ensures old(closed) ==> !ok && !due && sequence == old(sequence) && wal == old(wal)
      ensures !old(closed) ==>
                && stamped == Stamp(codec, old(sequence), e, now)
                && sequence == old(sequence) + 1
                && wal == old(wal) + Landed(codec, stamped, io)
                && ok == WriteSucceeds(codec, stamped, io)
                && due == (ok && sequence % interval == 0)
    {
      stamped, due := e, false;
      if closed {
        return false, stamped, false;
      }
      sequence := sequence + 1;
      stamped := stamped.(sequence := sequence, timestamp := now);
      stamped := stamped.(checksum := ComputeChecksum(codec, stamped));
      var data := codec.marshal(stamped);
      if data.None? {
        AppendNothing(wal);
        return false, stamped, false;
      }
      var frame := Frame(data.value);
      if io.Broken? {
        wal := wal + if io.landed < |frame| then frame[..io.landed] else frame;
        return false, stamped, false;
      }
      wal := wal + frame;
      return true, stamped, sequence % interval == 0;
    }

    /** First half of the asynchronous checkpoint: read the number under the lock. */
    method BeginCheckpoint() returns (r: Option<nat>)
      ensures r == if keepsCheckpoints then Some(sequence) else None
    {
      return if keepsCheckpoints then Some(sequence) else None;
    }

    /** Second half: the file appears some time later. */
    method EndCheckpoint(seqNo: nat)
      modifies this`checkpointFiles
      ensures checkpointFiles == old(checkpointFiles) + [Some(seqNo)]
    {
      checkpointFiles := checkpointFiles + [Some(seqNo)];
    }

    method FindLatestCheckpoint() returns (latest: nat)
      ensures latest == LatestCheckpoint()
      ensures !keepsCheckpoints ==> latest == 0
      ensures keepsCheckpoints ==> latest == 0 || Some(latest) in checkpointFiles
      ensures keepsCheckpoints ==> forall n :: Some(n) in checkpointFiles ==> n <= latest
    {
      latest := 0;
      if !keepsCheckpoints {
        return;
      }
      for i := 0 to |checkpointFiles|
        invariant latest == Latest(checkpointFiles[..i])
      {
        assert checkpointFiles[..i + 1][..i] == checkpointFiles[..i];
        match checkpointFiles[i] {
          case None =>
          case Some(n) =>
            if n > latest {
              latest := n;
            }
        }
      }
      assert checkpointFiles[..|checkpointFiles|] == checkpointFiles;
    }

    /** The replay loop over one file, with the reads of a regular file: short only at its end. */
    method ReplayWal(file: seq<Byte>, checkpoint: nat) returns (entries: seq<WalEntry>)
      modifies this`skippedEntries, this`corruptedSize
      ensures var r := ReplayOf(codec, checkpoint, file);
              && entries == r.entries
              && corruptedSize == old(corruptedSize) + r.corrupted
              && skippedEntries == old(skippedEntries) + r.skipped
    {
      entries := [];
      var pos := 0;
      ghost var at := ReplayTable(codec, checkpoint, file);
      ghost var left, goal := at[0], at[0];
      AppendNothing(goal.entries);
      while true
        invariant pos <= |file|
        invariant left == at[pos]
        invariant entries + left.entries == goal.entries
        invariant corruptedSize + left.corrupted == old(corruptedSize) + goal.corrupted
        invariant skippedEntries + left.skipped == old(skippedEntries) + goal.skipped
        decreases |file| - pos
      {
        AppendNothing(entries);
        assert Follows(codec, checkpoint, file, at, pos);
        if pos == |file| || |file| - pos < HEADER_SIZE {
          return;
        }
        var size := FromBigEndian(file[pos..pos + HEADER_SIZE]);
        if size > MAX_ENTRY_SIZE {
          corruptedSize := corruptedSize + HEADER_SIZE;
          skippedEntries := skippedEntries + 1;
          return;
        }
        var n := if |file| - pos - HEADER_SIZE < size then |file| - pos - HEADER_SIZE else size;
        if n == 0 && size > 0 {
          return;
        }
        if n < size {
          corruptedSize := corruptedSize + n + HEADER_SIZE;
          skippedEntries := skippedEntries + 1;
          return;
        }
        var buffer := file[pos + HEADER_SIZE..pos + HEADER_SIZE + size];
        pos := pos + HEADER_SIZE + size;
        left := at[pos];
        var decoded := codec.unmarshal(buffer);
        if decoded.None? {
          corruptedSize := corruptedSize + size + HEADER_SIZE;
          skippedEntries := skippedEntries + 1;
          continue;
        }
        if decoded.value.sequence <= checkpoint {
          continue;
        }
        if !VerifyChecksum(codec, decoded.value) {
          corruptedSize := corruptedSize + size + HEADER_SIZE;
          skippedEntries := skippedEntries + 1;
          continue;
        }
        Associate(entries, [decoded.value], left.entries);
        entries := entries + [decoded.value];
      }
    }

    function LatestCheckpoint(): nat
      reads this`checkpointFiles
    {
      if keepsCheckpoints then Latest(checkpointFiles) else 0
    }

    /** What the next recovery hands to its workers. */
    function Accepted(): seq<WalEntry>
      reads this`checkpointFiles, this`wal
    {
      ReplayOf(codec, LatestCheckpoint(), wal).entries
    }

    /** The reader's part: what the log holds beyond the latest checkpoint. */
    method ReadLog() returns (entries: seq<WalEntry>)
      modifies this`skippedEntries, this`corruptedSize
      ensures entries == Accepted() && AreDue(codec, wal, keepsCheckpoints, checkpointFiles, entries)
      ensures var replay := ReplayOf(codec, LatestCheckpoint(), wal);
              && corruptedSize == old(corruptedSize) + replay.corrupted
              && skippedEntries == old(skippedEntries) + replay.skipped
    {
      var checkpoint := FindLatestCheckpoint();
      DueIff(codec, wal, keepsCheckpoints, checkpointFiles, checkpoint);
      entries := ReplayWal(wal, checkpoint);
    }

    /** The workers' part: how many entries were sent, and the errors that were not nil. */
    method RunWorkers<S(!new)>(entries: seq<WalEntry>, start: S, apply: (S, WalEntry) -> (S, bool), schedule: (nat, Pool<S>) -> Move)
      returns (replayed: nat, errors: seq<nat>, tiers: S, ghost order: seq<nat>)
      requires workers > 0 && OrdersFit(EntryJob(entries, start, apply), workers)
      requires Obliging(EntryJob(entries, start, apply), schedule)
      ensures replayed == |entries| && multiset(order) == multiset(Range(0, |entries|))
      ensures tiers == Fold(EntryJob(entries, start, apply), order)
      ensures multiset(errors) == multiset(FailedOf(EntryJob(entries, start, apply), order))
      ensures |errors| == 0 <==> FailedOf(EntryJob(entries, start, apply), order) == []
    {
      var pool, ms := RunPool(EntryJob(entries, start, apply), workers, schedule);
      replayed, errors, tiers, order := pool.replayed, Failures(pool.errors), pool.tiers, pool.order;
      SameSize(errors, pool.failed);
    }

    /**
     Recovery under any scheduler: every accepted entry is applied once, in some order, and the result
     counts them and lists the failures.  The premise is exactly that under which the source returns under
     every schedule (PoolReturns.ReturnsIff).
     */
    method Recover<S(!new)>(start: S, apply: (S, WalEntry) -> (S, bool), schedule: (nat, Pool<S>) -> Move)
      returns (r: Option<RecoveryResult>, tiers: S, ghost order: seq<nat>)
      requires workers > 0 && OrdersFit(EntryJob(Accepted(), start, apply), workers)
      requires Obliging(EntryJob(Accepted(), start, apply), schedule)
      modifies this`sequence, this`skippedEntries, this`corruptedSize
      ensures closed ==> r == None && tiers == start && unchanged(this)
      ensures !closed ==>
                var j := EntryJob(Accepted(), start, apply);
                && r.Some? && r.value.replayed == |Accepted()|
                && multiset(order) == multiset(Range(0, |Accepted()|)) && tiers == Fold(j, order)
                && multiset(r.value.errors) == multiset(FailedOf(j, order))
                && (r.value.success <==> FailedOf(j, order) == [])
                && r.value.skipped == skippedEntries && r.value.corrupted == corruptedSize
      ensures !closed ==>
                var replay := ReplayOf(codec, LatestCheckpoint(), wal);
                && sequence == (if Accepted() == [] then old(sequence) else Accepted()[|Accepted()| - 1].sequence)
                && corruptedSize == old(corruptedSize) + replay.corrupted
                && skippedEntries == old(skippedEntries) + replay.skipped
      ensures !closed ==> AreDue(codec, wal, keepsCheckpoints, checkpointFiles, Accepted())
    {
      order := [];
      if closed {
        return None, start, [];
      }
      var entries := ReadLog();
      var replayed, errors;
      replayed, errors, tiers, order := RunWorkers(entries, start, apply, schedule);
      r := Some(RecoveryResult(replayed, skippedEntries, corruptedSize, errors, |errors| == 0));
      Resume(entries);
    }

    /** Numbering goes on from the last entry accepted, if there is one. */
    method Resume(entries: seq<WalEntry>)
      modifies this`sequence
      ensures sequence == if entries == [] then old(sequence) else entries[|entries| - 1].sequence
    {
      if |entries| > 0 {
        sequence := entries[|entries| - 1].sequence;
      }
    }
  }

  lemma HeaderOf(file: seq<Byte>, pos: nat)
    requires pos + HEADER_SIZE <= |file|
    ensures file[pos..][..HEADER_SIZE] == file[pos..pos + HEADER_SIZE]
  {
  }

  lemma DropDrop<T>(s: seq<T>, i: nat, j: nat)
    requires i + j <= |s|
    ensures s[i..][j..] == s[i + j..]
  {
  }

  lemma SliceOfDrop<T>(s: seq<T>, i: nat, j: nat, k: nat)
    requires j <= k && i + k <= |s|
    ensures s[i..][j..k] == s[i + j..i + k]
  {
  }

  /** How the result of replaying from `pos` follows from the header and payload found there. */
  ghost predicate Follows(c: Codec, checkpoint: nat, file: seq<Byte>, at: seq<Replay>, pos: nat)
    requires |at| == |file| + 1 && pos <= |file|
  {
    if |file| - pos < HEADER_SIZE then at[pos] == Replay([], 0, 0)
    else
      var size, n := FromBigEndian(file[pos..pos + HEADER_SIZE]), |file| - pos - HEADER_SIZE;
      if size > MAX_ENTRY_SIZE then at[pos] == Replay([], HEADER_SIZE, 1)
      else if size > 0 && n == 0 then at[pos] == Replay([], 0, 0)
      else if n < size then at[pos] == Replay([], HEADER_SIZE + n, 1)
      else
        var v := Judge(c, checkpoint, file[pos + HEADER_SIZE..pos + HEADER_SIZE + size]);
        at[pos] == After(v, size, at[pos + HEADER_SIZE + size])
  }

  function After(v: Verdict, size: nat, next: Replay): Replay {
    Replay(if v.Accepted? then [v.entry] + next.entries else next.entries,
           next.corrupted + (if IsCorrupt(v) then HEADER_SIZE + size else 0),
           next.skipped + (if IsCorrupt(v) then 1 else 0))
  }

  ghost predicate Tabled(c: Codec, checkpoint: nat, file: seq<Byte>, at: seq<Replay>) {
    |at| == |file| + 1 && forall p :: 0 <= p <= |file| ==> at[p] == ReplayOf(c, checkpoint, file[p..])
  }

  lemma FollowsBy(c: Codec, checkpoint: nat, file: seq<Byte>, at: seq<Replay>, pos: nat, size: nat, next: nat, v: Verdict)
    requires |at| == |file| + 1 && next == pos + HEADER_SIZE + size <= |file| && size <= MAX_ENTRY_SIZE
    requires size == FromBigEndian(file[pos..pos + HEADER_SIZE])
    requires v == Judge(c, checkpoint, file[pos + HEADER_SIZE..pos + HEADER_SIZE + size])
    requires at[pos] == After(v, size, at[next])
    ensures Follows(c, checkpoint, file, at, pos)
  {
  }

  lemma TabledNext(c: Codec, checkpoint: nat, file: seq<Byte>, at: seq<Replay>, pos: nat, next: nat, v: Verdict, size: nat)
    requires Tabled(c, checkpoint, file, at) && pos <= |file| && next <= |file|
    requires ReplayOf(c, checkpoint, file[pos..]) == After(v, size, ReplayOf(c, checkpoint, file[next..]))
    ensures at[pos] == After(v, size, at[next])
  {
  }

  lemma FollowsWhole(c: Codec, checkpoint: nat, file: seq<Byte>, at: seq<Replay>, pos: nat, size: nat)
    requires Tabled(c, checkpoint, file, at) && pos + HEADER_SIZE + size <= |file| && size <= MAX_ENTRY_SIZE
    requires size == FromBigEndian(file[pos..pos + HEADER_SIZE])
    ensures Follows(c, checkpoint, file, at, pos)
  {
    var v, next := Judge(c, checkpoint, file[pos + HEADER_SIZE..pos + HEADER_SIZE + size]), pos + HEADER_SIZE + size;
    ReplayStep(c, checkpoint, file, pos, size, next, v);
    TabledNext(c, checkpoint, file, at, pos, next, v, size);
    FollowsBy(c, checkpoint, file, at, pos, size, next, v);
  }

  lemma FollowsBroken(c: Codec, checkpoint: nat, file: seq<Byte>, at: seq<Replay>, pos: nat, size: nat)
    requires Tabled(c, checkpoint, file, at) && pos + HEADER_SIZE <= |file|
    requires size == FromBigEndian(file[pos..pos + HEADER_SIZE])
    requires size > MAX_ENTRY_SIZE || |file| < pos + HEADER_SIZE + size
    ensures Follows(c, checkpoint, file, at, pos)
  {
    HeaderOf(file, pos);
    ReplayBroken(c, checkpoint, file[pos..], size);
  }

  lemma FollowsAt(c: Codec, checkpoint: nat, file: seq<Byte>, at: seq<Replay>, pos: nat)
    requires Tabled(c, checkpoint, file, at) && pos <= |file|
    ensures Follows(c, checkpoint, file, at, pos)
  {
    if |file| - pos < HEADER_SIZE {
      ReplayShort(c, checkpoint, file[pos..]);
    } else {
      var size := FromBigEndian(file[pos..pos + HEADER_SIZE]);
      if size <= MAX_ENTRY_SIZE && pos + HEADER_SIZE + size <= |file| {
        FollowsWhole(c, checkpoint, file, at, pos, size);
      } else {
        FollowsBroken(c, checkpoint, file, at, pos, size);
      }
    }
  }

  /** The replay result from every offset, as a table the loop walks. */
  lemma ReplayTable(c: Codec, checkpoint: nat, file: seq<Byte>) returns (at: seq<Replay>)
    ensures |at| == |file| + 1 && at[0] == ReplayOf(c, checkpoint, file)
    ensures forall pos :: 0 <= pos <= |file| ==> Follows(c, checkpoint, file, at, pos)
  {
    at := seq(|file| + 1, p requires 0 <= p <= |file| => ReplayOf(c, checkpoint, file[p..]));
    DropNothing(file);
    forall pos | 0 <= pos <= |file| ensures Follows(c, checkpoint, file, at, pos) {
      FollowsAt(c, checkpoint, file, at, pos);
    }
  }

  lemma ReplayShort(c: Codec, checkpoint: nat, b: seq<Byte>)
    requires |b| < HEADER_SIZE
    ensures ReplayOf(c, checkpoint, b) == Replay([], 0, 0)
  {
  }

  /** A header without its whole payload. */
  lemma ReplayBroken(c: Codec, checkpoint: nat, b: seq<Byte>, size: nat)
    requires |b| >= HEADER_SIZE && size == FromBigEndian(b[..HEADER_SIZE])
    requires size > MAX_ENTRY_SIZE || |b| < HEADER_SIZE + size
    ensures ReplayOf(c, checkpoint, b) ==
            if size > MAX_ENTRY_SIZE then Replay([], HEADER_SIZE, 1)
            else if |b| == HEADER_SIZE then Replay([], 0, 0)
            else Replay([], |b|, 1)
  {
  }

  /** One whole frame at `pos`: what it adds to the result of replaying the rest. */
  lemma ReplayStep(c: Codec, checkpoint: nat, file: seq<Byte>, pos: nat, size: nat, next: nat, v: Verdict)
    requires next == pos + HEADER_SIZE + size <= |file| && size <= MAX_ENTRY_SIZE
    requires size == FromBigEndian(file[pos..pos + HEADER_SIZE])
    requires v == Judge(c, checkpoint, file[pos + HEADER_SIZE..next])
    ensures ReplayOf(c, checkpoint, file[pos..]) == After(v, size, ReplayOf(c, checkpoint, file[next..]))
  {
    HeaderOf(file, pos);
    DropDrop(file, pos, HEADER_SIZE + size);
    SliceOfDrop(file, pos, HEADER_SIZE, HEADER_SIZE + size);
    ReplayCons(c, checkpoint, file[pos..], size);
  }

  lemma ReplayCons(c: Codec, checkpoint: nat, b: seq<Byte>, size: nat)
    requires HEADER_SIZE + size <= |b| && size <= MAX_ENTRY_SIZE && size == FromBigEndian(b[..HEADER_SIZE])
    ensures var v := Judge(c, checkpoint, b[HEADER_SIZE..HEADER_SIZE + size]);
            ReplayOf(c, checkpoint, b) == After(v, size, ReplayOf(c, checkpoint, b[HEADER_SIZE + size..]))
  {
    var p, l := b[HEADER_SIZE..HEADER_SIZE + size], Parse(b[HEADER_SIZE + size..]);
    assert Parse(b) == Prepend(p, l);
    assert Prepend(p, l).frames[1..] == l.frames;
  }
}
