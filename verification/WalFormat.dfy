/**
 The write-ahead log as a byte string (pkg/replay/recovery.go).

 A log is a row of frames, each an 8-byte big-endian length followed by a JSON payload.
 `Parse` cuts any byte string into frames and an ending that is not a frame; it looks at
 headers only.  `Judge` decides what replay does with one payload.  Everything the replay
 loop returns and counts is stated through these two.
 */
module WalFormat {
  import opened Bytes
  import opened Sequences

  const HEADER_SIZE := 8
  const MAX_ENTRY_SIZE := 1024 * 1024
  const UINT64_RANGE := 0x1_0000_0000_0000_0000

  const OP_SET := 0
  const OP_DELETE := 1

  /** Go's time.Time: the monotonic reading is set by time.Now and lost by JSON. */
  datatype Timestamp = Timestamp(wall: int, monotonic: Option<int>)

  datatype WalEntry = WalEntry(
    sequence: nat,
    timestamp: Timestamp,
    operation: int,
    key: string,
    value: seq<Byte>,
    metadata: map<string, string>,
    tier: int,
    checksum: nat)

  /** JSON and FNV-1a, kept abstract.  The hash covers neither the tier nor the metadata. */
  datatype Codec = Codec(
    marshal: WalEntry -> Option<seq<Byte>>,
    unmarshal: seq<Byte> -> Option<WalEntry>,
    hash: (nat, string, seq<Byte>, Timestamp, int) -> nat)

  function ComputeChecksum(c: Codec, e: WalEntry): nat {
    c.hash(e.sequence, e.key, e.value, e.timestamp, e.operation)
  }

  predicate VerifyChecksum(c: Codec, e: WalEntry) {
    e.checksum == ComputeChecksum(c, e)
  }

  /** What an entry looks like after a trip through JSON. */
  function Wire(e: WalEntry): (r: WalEntry)
    ensures r.timestamp.wall == e.timestamp.wall && r.timestamp.monotonic == None && r == e.(timestamp := r.timestamp)
  {
    e.(timestamp := e.timestamp.(monotonic := None))
  }

  // ---------------------------------------------------------------- frames

  function Frame(payload: seq<Byte>): (r: seq<Byte>)
    ensures |r| == HEADER_SIZE + |payload|
  {
    BigEndian(|payload|, HEADER_SIZE) + payload
  }

  function Framed(payloads: seq<seq<Byte>>): seq<Byte> {
    if payloads == [] then [] else Frame(payloads[0]) + Framed(payloads[1..])
  }

  /** The offset just past frame `i`. */
  function FrameEnd(payloads: seq<seq<Byte>>, i: nat): nat
    requires i < |payloads|
  {
    |Framed(payloads[..i + 1])|
  }

  predicate Fits(payload: seq<Byte>) {
    |payload| <= MAX_ENTRY_SIZE
  }

  /** What follows the last whole frame; each number is a byte count. */
  datatype Tail =
    | Clean
    | TornHeader(bytes: nat)
    | Oversize(after: nat)
    | HeaderOnly
    | TornPayload(payload: nat)

  datatype Layout = Layout(frames: seq<seq<Byte>>, tail: Tail)

  function Prepend(p: seq<Byte>, l: Layout): Layout {
    Layout([p] + l.frames, l.tail)
  }

  function Parse(b: seq<Byte>): (r: Layout)
    decreases |b|
  {
    if |b| == 0 then Layout([], Clean)
    else if |b| < HEADER_SIZE then Layout([], TornHeader(|b|))
    else
      var size := FromBigEndian(b[..HEADER_SIZE]);
      if size > MAX_ENTRY_SIZE then Layout([], Oversize(|b| - HEADER_SIZE))
      else if size > 0 && |b| == HEADER_SIZE then Layout([], HeaderOnly)
      else if |b| < HEADER_SIZE + size then Layout([], TornPayload(|b| - HEADER_SIZE))
      else Prepend(b[HEADER_SIZE..HEADER_SIZE + size], Parse(b[HEADER_SIZE + size..]))
  }

  lemma FrameHeader(p: seq<Byte>, rest: seq<Byte>)
    requires |p| < UINT64_RANGE
    ensures var b := Frame(p) + rest;
            FromBigEndian(b[..HEADER_SIZE]) == |p| && b[HEADER_SIZE..HEADER_SIZE + |p|] == p && b[HEADER_SIZE + |p|..] == rest
  {
    Pow256Values();
    DecodeEncode(|p|, HEADER_SIZE);
    assert (Frame(p) + rest)[..HEADER_SIZE] == BigEndian(|p|, HEADER_SIZE);
  }

  lemma FramedCons(ps: seq<seq<Byte>>, rest: seq<Byte>)
    requires ps != []
    ensures Framed(ps) + rest == Frame(ps[0]) + (Framed(ps[1..]) + rest)
  {
  }

  lemma ParseFrame(p: seq<Byte>, rest: seq<Byte>)
    requires Fits(p)
    ensures Parse(Frame(p) + rest) == Prepend(p, Parse(rest))
  {
    FrameHeader(p, rest);
  }

  /** Whole frames in front of any bytes are read back unchanged, and the rest as if alone. */
  lemma {:induction false} ParseFramed(ps: seq<seq<Byte>>, rest: seq<Byte>)
    requires forall p :: p in ps ==> Fits(p)
    ensures Parse(Framed(ps) + rest) == Layout(ps + Parse(rest).frames, Parse(rest).tail)
  {
    if ps == [] {
      assert Framed(ps) + rest == rest;
    } else {
      FramedCons(ps, rest);
      ParseFramed(ps[1..], rest);
      ParseFrame(ps[0], Framed(ps[1..]) + rest);
      ConsAssociates(ps, Parse(rest).frames);
    }
  }

  lemma ParseFramedAlone(ps: seq<seq<Byte>>)
    requires forall p :: p in ps ==> Fits(p)
    ensures Parse(Framed(ps)) == Layout(ps, Clean)
  {
    ParseFramed(ps, []);
    AppendNothing(Framed(ps));
    AppendNothing(ps);
  }

  lemma {:induction false} ParsedFramesFit(b: seq<Byte>)
    ensures forall p :: p in Parse(b).frames ==> Fits(p)
    decreases |b|
  {
    if |b| >= HEADER_SIZE {
      var size := FromBigEndian(b[..HEADER_SIZE]);
      if size <= MAX_ENTRY_SIZE && HEADER_SIZE + size <= |b| {
        ParsedFramesFit(b[HEADER_SIZE + size..]);
      }
    }
  }

  function TailLength(t: Tail): nat {
    match t
    case Clean => 0
    case TornHeader(n) => n
    case Oversize(n) => HEADER_SIZE + n
    case HeaderOnly => HEADER_SIZE
    case TornPayload(n) => HEADER_SIZE + n
  }

  lemma FramedPrepend(p: seq<Byte>, l: Layout)
    ensures Framed(Prepend(p, l).frames) == Frame(p) + Framed(l.frames)
  {
    assert Prepend(p, l).frames[1..] == l.frames;
  }

  lemma HeaderAndRest(b: seq<Byte>, size: nat)
    requires HEADER_SIZE + size <= |b| && size == FromBigEndian(b[..HEADER_SIZE])
    ensures b == Frame(b[HEADER_SIZE..HEADER_SIZE + size]) + b[HEADER_SIZE + size..]
  {
    EncodeDecode(b[..HEADER_SIZE]);
  }

  /** Writing the parsed frames again gives the file back, up to an ending of the stated length. */
  lemma {:induction false} Reassemble(b: seq<Byte>)
    ensures |Framed(Parse(b).frames)| + TailLength(Parse(b).tail) == |b|
    ensures Framed(Parse(b).frames) <= b
    decreases |b|
  {
    if |b| >= HEADER_SIZE {
      var size := FromBigEndian(b[..HEADER_SIZE]);
      if size <= MAX_ENTRY_SIZE && HEADER_SIZE + size <= |b| {
        var p, rest := b[HEADER_SIZE..HEADER_SIZE + size], b[HEADER_SIZE + size..];
        Reassemble(rest);
        FramedPrepend(p, Parse(rest));
        HeaderAndRest(b, size);
        PrefixAfter(Frame(p), Framed(Parse(rest).frames), rest);
      }
    }
  }

  lemma {:induction false} FramedConcat(ps: seq<seq<Byte>>, qs: seq<seq<Byte>>)
    ensures Framed(ps + qs) == Framed(ps) + Framed(qs)
  {
    if ps == [] {
      assert ps + qs == qs;
    } else {
      FramedConcat(ps[1..], qs);
      ConcatTail(ps, qs);
      Associate(Frame(ps[0]), Framed(ps[1..]), Framed(qs));
    }
  }

  /** A parsed ending is Clean exactly when it is empty: no byte is left over. */
  lemma CleanIffNothingLeft(b: seq<Byte>)
    ensures Parse(b).tail.Clean? <==> b == Framed(Parse(b).frames)
  {
    Reassemble(b);
    TornHeaderIsNonempty(b);
  }

  lemma {:induction false} TornHeaderIsNonempty(b: seq<Byte>)
    ensures Parse(b).tail.TornHeader? ==> 0 < Parse(b).tail.bytes < HEADER_SIZE
    decreases |b|
  {
    if |b| >= HEADER_SIZE {
      var size := FromBigEndian(b[..HEADER_SIZE]);
      if size <= MAX_ENTRY_SIZE && HEADER_SIZE + size <= |b| {
        TornHeaderIsNonempty(b[HEADER_SIZE + size..]);
      }
    }
  }

  /**
   `Write` never checks the size of what it appends.  A log is read back whole exactly when
   every payload is within the limit the reader enforces; one that is not hides all that follow.
   */
  lemma {:induction false} ReadBackIff(ps: seq<seq<Byte>>)
    requires forall p :: p in ps ==> |p| < UINT64_RANGE
    ensures Parse(Framed(ps)) == Layout(ps, Clean) <==> forall p :: p in ps ==> |p| <= 1024 * 1024
  {
    if forall p :: p in ps ==> Fits(p) {
      ParseFramedAlone(ps);
    } else {
      ParsedFramesFit(Framed(ps));
    }
  }

  lemma OversizeHidesTheRest(ps: seq<seq<Byte>>, big: seq<Byte>, rest: seq<Byte>)
    requires forall p :: p in ps ==> Fits(p)
    requires !Fits(big) && |big| < UINT64_RANGE
    ensures Parse(Framed(ps) + (Frame(big) + rest)) == Layout(ps, Oversize(|big| + |rest|))
  {
    ParseOversize(big, rest);
    ParseFramed(ps, Frame(big) + rest);
    AppendNothing(ps);
  }

  lemma ParseOversize(big: seq<Byte>, rest: seq<Byte>)
    requires !Fits(big) && |big| < UINT64_RANGE
    ensures Parse(Frame(big) + rest) == Layout([], Oversize(|big| + |rest|))
  {
    ParseBig(big, rest, Frame(big) + rest);
  }

  lemma ParseBig(big: seq<Byte>, rest: seq<Byte>, b: seq<Byte>)
    requires !Fits(big) && |big| < UINT64_RANGE && b == Frame(big) + rest
    ensures Parse(b) == Layout([], Oversize(|big| + |rest|))
  {
    BigHeader(big, rest, b);
    ParseBigHeader(b, |big|, |rest|);
  }

  lemma BigHeader(big: seq<Byte>, rest: seq<Byte>, b: seq<Byte>)
    requires |big| < UINT64_RANGE && b == Frame(big) + rest
    ensures |b| == HEADER_SIZE + |big| + |rest| && FromBigEndian(b[..HEADER_SIZE]) == |big|
  {
    FrameHeader(big, rest);
  }

  lemma ParseBigHeader(b: seq<Byte>, size: nat, more: nat)
    requires |b| == HEADER_SIZE + size + more && FromBigEndian(b[..HEADER_SIZE]) == size > MAX_ENTRY_SIZE
    ensures Parse(b) == Layout([], Oversize(size + more))
  {
  }

  /**
   A frame appended after a crash is read back, with nothing else changed, exactly when the
   log it was appended to ended on a frame boundary.  Recovery does not truncate a torn tail.
   */
  lemma AppendReadBackIff(b: seq<Byte>, p: seq<Byte>)
    requires Fits(p)
    ensures Parse(b + Frame(p)) == Layout(Parse(b).frames + [p], Clean) <==> Parse(b).tail.Clean?
  {
    ParsedFramesFit(b);
    CleanIffNothingLeft(b);
    CleanIffNothingLeft(b + Frame(p));
    FramedSnoc(Parse(b).frames, p);
    if Parse(b).tail.Clean? {
      ParseFramedAlone(Parse(b).frames + [p]);
    } else {
      Reassemble(b);
    }
  }

  lemma FramedSnoc(ps: seq<seq<Byte>>, p: seq<Byte>)
    ensures Framed(ps + [p]) == Framed(ps) + Frame(p)
  {
    FramedConcat(ps, [p]);
    assert [p][1..] == [];
    AppendNothing(Frame(p));
  }

  // ---------------------------------------------------------------- verdicts

  datatype Verdict = Undecodable | BelowCheckpoint | BadChecksum | Accepted(entry: WalEntry)

  function Judge(c: Codec, checkpoint: nat, payload: seq<Byte>): Verdict {
    match c.unmarshal(payload)
    case None => Undecodable
    case Some(e) =>
      if e.sequence <= checkpoint then BelowCheckpoint
      else if !VerifyChecksum(c, e) then BadChecksum
      else Accepted(e)
  }

  predicate IsAccepted(v: Verdict) { v.Accepted? }
  predicate IsBelow(v: Verdict) { v.BelowCheckpoint? }
  predicate IsCorrupt(v: Verdict) { v.Undecodable? || v.BadChecksum? }

  function AcceptedEntries(c: Codec, checkpoint: nat, frames: seq<seq<Byte>>): seq<WalEntry> {
    if frames == [] then []
    else
      var v := Judge(c, checkpoint, frames[0]);
      (if v.Accepted? then [v.entry] else []) + AcceptedEntries(c, checkpoint, frames[1..])
  }

  /** Bytes, headers included, of the frames whose verdict satisfies `p`. */
  function BytesWhere(c: Codec, checkpoint: nat, frames: seq<seq<Byte>>, p: Verdict -> bool): nat {
    if frames == [] then 0
    else
      var here := if p(Judge(c, checkpoint, frames[0])) then HEADER_SIZE + |frames[0]| else 0;
      here + BytesWhere(c, checkpoint, frames[1..], p)
  }

  function CountWhere(c: Codec, checkpoint: nat, frames: seq<seq<Byte>>, p: Verdict -> bool): nat {
    if frames == [] then 0
    else (if p(Judge(c, checkpoint, frames[0])) then 1 else 0) + CountWhere(c, checkpoint, frames[1..], p)
  }

  /** The ending's share of corruptedSize and of skippedEntries. */
  function CorruptTail(t: Tail): nat {
    match t
    case Oversize(_) => HEADER_SIZE
    case TornPayload(n) => HEADER_SIZE + n
    case _ => 0
  }

  function SkippedTail(t: Tail): nat {
    if t.Oversize? || t.TornPayload? then 1 else 0
  }

  /** The ending's bytes that no counter sees. */
  function UncountedTail(t: Tail): nat {
    match t
    case TornHeader(n) => n
    case Oversize(n) => n
    case HeaderOnly => HEADER_SIZE
    case _ => 0
  }

  /** All that one replay pass produces. */
  datatype Replay = Replay(entries: seq<WalEntry>, corrupted: nat, skipped: nat)

  function ReplayOf(c: Codec, checkpoint: nat, file: seq<Byte>): Replay {
    var l := Parse(file);
    Replay(AcceptedEntries(c, checkpoint, l.frames),
           BytesWhere(c, checkpoint, l.frames, IsCorrupt) + CorruptTail(l.tail),
           CountWhere(c, checkpoint, l.frames, IsCorrupt) + SkippedTail(l.tail))
  }

  // ---------------------------------------------------------------- what each frame does

  /** What is handed out: the payloads that decode to entries beyond the checkpoint whose checksum verifies. */
  lemma {:induction false} HandedOutIff(c: Codec, checkpoint: nat, frames: seq<seq<Byte>>, e: WalEntry)
    ensures e in AcceptedEntries(c, checkpoint, frames) <==>
            exists i :: 0 <= i < |frames| && c.unmarshal(frames[i]) == Some(e) && e.sequence > checkpoint && VerifyChecksum(c, e)
  {
    if frames != [] {
      HandedOutIff(c, checkpoint, frames[1..], e);
      assert forall i :: 0 < i < |frames| ==> frames[i] == frames[1..][i - 1];
      var rest := frames[1..];
      if i :| 0 <= i < |rest| && c.unmarshal(rest[i]) == Some(e) && e.sequence > checkpoint && VerifyChecksum(c, e) {
        assert frames[i + 1] == rest[i];
      }
    }
  }

  lemma {:induction false} CountsConcat(c: Codec, checkpoint: nat, ps: seq<seq<Byte>>, qs: seq<seq<Byte>>)
    ensures BytesWhere(c, checkpoint, ps + qs, IsCorrupt)
            == BytesWhere(c, checkpoint, ps, IsCorrupt) + BytesWhere(c, checkpoint, qs, IsCorrupt)
    ensures CountWhere(c, checkpoint, ps + qs, IsCorrupt)
            == CountWhere(c, checkpoint, ps, IsCorrupt) + CountWhere(c, checkpoint, qs, IsCorrupt)
  {
    if ps == [] {
      NothingFirst(qs);
    } else {
      CountsConcat(c, checkpoint, ps[1..], qs);
      ConcatTail(ps, qs);
    }
  }

  /** Whole frames in front add what they add alone. */
  lemma ReplayConcat(c: Codec, checkpoint: nat, ps: seq<seq<Byte>>, rest: seq<Byte>)
    requires forall p :: p in ps ==> Fits(p)
    ensures var r, s := ReplayOf(c, checkpoint, Framed(ps)), ReplayOf(c, checkpoint, rest);
            ReplayOf(c, checkpoint, Framed(ps) + rest)
            == Replay(r.entries + s.entries, r.corrupted + s.corrupted, r.skipped + s.skipped)
  {
    ParseFramed(ps, rest);
    ParseFramedAlone(ps);
    AcceptedConcat(c, checkpoint, ps, Parse(rest).frames);
    CountsConcat(c, checkpoint, ps, Parse(rest).frames);
  }

  /** What a payload that decodes to `decoded` adds to a replay. */
  ghost predicate Adds(c: Codec, checkpoint: nat, decoded: Option<WalEntry>, size: nat, without: Replay, with: Replay) {
    if decoded.None? then
      with.corrupted == without.corrupted + 8 + size && with.skipped == without.skipped + 1
    else if decoded.value.sequence <= checkpoint then
      with.corrupted == without.corrupted && with.skipped == without.skipped
    else if decoded.value.checksum != ComputeChecksum(c, decoded.value) then
      with.corrupted == without.corrupted + 8 + size && with.skipped == without.skipped + 1
    else
      with.corrupted == without.corrupted && with.skipped == without.skipped
  }

  lemma OneFrame(c: Codec, checkpoint: nat, p: seq<Byte>, rest: seq<Byte>)
    requires Fits(p)
    ensures var s, r := ReplayOf(c, checkpoint, rest), ReplayOf(c, checkpoint, Frame(p) + rest);
            && Adds(c, checkpoint, c.unmarshal(p), |p|, s, r)
            && r.entries == (match c.unmarshal(p)
                             case None => []
                             case Some(e) => if e.sequence > checkpoint && e.checksum == ComputeChecksum(c, e) then [e] else [])
                            + s.entries
  {
    ParseFrame(p, rest);
    assert Prepend(p, Parse(rest)).frames[1..] == Parse(rest).frames;
  }

  /**
   Any whole frame of any file, against the same file without it: a payload that does not decode, or is
   beyond the checkpoint with a checksum that does not verify, adds its bytes with the header to the corrupt
   ones and one to the skipped; an entry at or below the checkpoint adds nothing; any other is handed out in
   its place.
   */
  lemma FrameAdds(c: Codec, checkpoint: nat, b: seq<Byte>, i: nat) returns (before: seq<Byte>, after: seq<Byte>)
    requires i < |Parse(b).frames|
    ensures b == before + (Frame(Parse(b).frames[i]) + after) && before == Framed(Parse(b).frames[..i])
    ensures var p, without, with := Parse(b).frames[i], ReplayOf(c, checkpoint, before + after), ReplayOf(c, checkpoint, b);
            Adds(c, checkpoint, c.unmarshal(p), |p|, without, with)
    ensures var first, last := ReplayOf(c, checkpoint, before).entries, ReplayOf(c, checkpoint, after).entries;
            && ReplayOf(c, checkpoint, before + after).entries == first + last
            && ReplayOf(c, checkpoint, b).entries
               == first + ((match c.unmarshal(Parse(b).frames[i])
                            case None => []
                            case Some(e) => if e.sequence > checkpoint && e.checksum == ComputeChecksum(c, e) then [e] else [])
                           + last)
  {
    var fs := Parse(b).frames;
    before, after := SplitAtFrame(b, i);
    ParsedFramesFit(b);
    ReplayConcat(c, checkpoint, fs[..i], after);
    ReplayConcat(c, checkpoint, fs[..i], Frame(fs[i]) + after);
    OneFrame(c, checkpoint, fs[i], after);
  }

  lemma WholeFrame(b: seq<Byte>)
    requires |b| >= HEADER_SIZE && FromBigEndian(b[..HEADER_SIZE]) <= MAX_ENTRY_SIZE
    ensures HEADER_SIZE + FromBigEndian(b[..HEADER_SIZE]) <= |b| ==> Parse(b).frames != []
  {
  }

  /** Why no whole frame begins. */
  lemma TailOf(b: seq<Byte>)
    requires Parse(b).frames == []
    ensures Parse(b).tail ==
            if |b| == 0 then Clean
            else if |b| < HEADER_SIZE then TornHeader(|b|)
            else if FromBigEndian(b[..HEADER_SIZE]) > MAX_ENTRY_SIZE then Oversize(|b| - HEADER_SIZE)
            else if |b| == HEADER_SIZE then HeaderOnly
            else TornPayload(|b| - HEADER_SIZE)
  {
    if |b| >= HEADER_SIZE && FromBigEndian(b[..HEADER_SIZE]) <= MAX_ENTRY_SIZE {
      WholeFrame(b);
    }
  }

  lemma TailCounts(tail: Tail, n: nat, size: nat)
    requires tail ==
             if n == 0 then Clean
             else if n < HEADER_SIZE then TornHeader(n)
             else if size > MAX_ENTRY_SIZE then Oversize(n - HEADER_SIZE)
             else if n == HEADER_SIZE then HeaderOnly
             else TornPayload(n - HEADER_SIZE)
    ensures CorruptTail(tail) == if n < 8 then 0 else if size > 1048576 then 8 else if n == 8 then 0 else n
    ensures SkippedTail(tail) == if n < 8 then 0 else if size > 1048576 then 1 else if n == 8 then 0 else 1
  {
  }

  lemma TailAlone(c: Codec, checkpoint: nat, b: seq<Byte>, tail: Tail)
    requires Parse(b).frames == [] && Parse(b).tail == tail
    ensures ReplayOf(c, checkpoint, b) == Replay([], CorruptTail(tail), SkippedTail(tail))
  {
  }

  /** What no whole frame begins: too little for a header, a header out of range, or a payload cut short. */
  lemma TailAdds(c: Codec, checkpoint: nat, b: seq<Byte>)
    requires Parse(b).frames == []
    ensures ReplayOf(c, checkpoint, b) ==
            if |b| < 8 then Replay([], 0, 0)
            else if FromBigEndian(b[..8]) > 1048576 then Replay([], 8, 1)
            else if |b| == 8 then Replay([], 0, 0)
            else Replay([], |b|, 1)
  {
    TailOf(b);
    TailAlone(c, checkpoint, b, Parse(b).tail);
    TailCounts(Parse(b).tail, |b|, if |b| < 8 then 0 else FromBigEndian(b[..8]));
  }

  lemma {:induction false} VerdictBytes(c: Codec, checkpoint: nat, frames: seq<seq<Byte>>)
    ensures |Framed(frames)| == BytesWhere(c, checkpoint, frames, IsAccepted)
                              + BytesWhere(c, checkpoint, frames, IsBelow)
                              + BytesWhere(c, checkpoint, frames, IsCorrupt)
  {
    if frames != [] {
      VerdictBytes(c, checkpoint, frames[1..]);
    }
  }

  /** Every byte of any file is accepted, below the checkpoint, counted corrupt, or in the stated tail. */
  lemma {:induction false} EveryByteAccounted(c: Codec, checkpoint: nat, file: seq<Byte>)
    ensures BytesWhere(c, checkpoint, Parse(file).frames, IsAccepted)
            + BytesWhere(c, checkpoint, Parse(file).frames, IsBelow)
            + ReplayOf(c, checkpoint, file).corrupted
            + UncountedTail(Parse(file).tail) == |file|
  {
    Reassemble(file);
    VerdictBytes(c, checkpoint, Parse(file).frames);
  }

  lemma {:induction false} AcceptedConcat(c: Codec, checkpoint: nat, ps: seq<seq<Byte>>, qs: seq<seq<Byte>>)
    ensures AcceptedEntries(c, checkpoint, ps + qs) == AcceptedEntries(c, checkpoint, ps) + AcceptedEntries(c, checkpoint, qs)
  {
    if ps == [] {
      assert ps + qs == qs;
    } else {
      AcceptedConcat(c, checkpoint, ps[1..], qs);
      ConcatTail(ps, qs);
      var v := Judge(c, checkpoint, ps[0]);
      var here := if v.Accepted? then [v.entry] else [];
      Associate(here, AcceptedEntries(c, checkpoint, ps[1..]), AcceptedEntries(c, checkpoint, qs));
    }
  }

  // ---------------------------------------------------------------- damage

  function PayloadStart(frames: seq<seq<Byte>>, i: nat): nat
    requires i < |frames|
  {
    |Framed(frames[..i])| + HEADER_SIZE
  }

  /** The two files differ at most inside the payload of frame `i` of the first. */
  ghost predicate DamagedInPayload(b: seq<Byte>, b': seq<Byte>, i: nat)
    requires i < |Parse(b).frames|
  {
    var start := PayloadStart(Parse(b).frames, i);
    && |b'| == |b|
    && forall j :: 0 <= j < |b| && !(start <= j < start + |Parse(b).frames[i]|) ==> b'[j] == b[j]
  }

  lemma SplitAtFrame(b: seq<Byte>, i: nat) returns (before: seq<Byte>, after: seq<Byte>)
    requires i < |Parse(b).frames|
    ensures before == Framed(Parse(b).frames[..i])
    ensures b == before + (Frame(Parse(b).frames[i]) + after)
  {
    var fs := Parse(b).frames;
    before := Framed(fs[..i]);
    Reassemble(b);
    var whole := Framed(fs);
    SplitSeq(fs, i);
    FramedConcat(fs[..i], fs[i..]);
    FramedCons(fs[i..], b[|whole|..]);
    after := Framed(fs[i..][1..]) + b[|whole|..];
    PrefixSplit(whole, b);
    Associate(before, Framed(fs[i..]), b[|whole|..]);
  }

  /** Damage to one payload changes that frame's bytes and nothing else about the layout. */
  lemma DamageKeepsLayout(b: seq<Byte>, b': seq<Byte>, i: nat)
    requires i < |Parse(b).frames|
    requires DamagedInPayload(b, b', i)
    ensures PayloadStart(Parse(b).frames, i) + |Parse(b).frames[i]| <= |b|
    ensures var fs, start := Parse(b).frames, PayloadStart(Parse(b).frames, i);
            Parse(b') == Layout(fs[i := b'[start..start + |fs[i]|]], Parse(b).tail)
  {
    var p, after := DamagedParts(b, b', i);
    ParsedFramesFit(b);
    ParseOtherMiddle(Parse(b).frames[..i], Parse(b).frames[i], p, after);
  }

  lemma DamagedParts(b: seq<Byte>, b': seq<Byte>, i: nat) returns (p: seq<Byte>, after: seq<Byte>)
    requires i < |Parse(b).frames|
    requires DamagedInPayload(b, b', i)
    ensures var fs, start := Parse(b).frames, PayloadStart(Parse(b).frames, i);
            && start + |fs[i]| <= |b| && p == b'[start..start + |fs[i]|]
            && b == Framed(fs[..i]) + (Frame(fs[i]) + after)
            && b' == Framed(fs[..i]) + (Frame(p) + after)
  {
    var fs := Parse(b).frames;
    var before;
    before, after := SplitAtFrame(b, i);
    var start := PayloadStart(fs, i);
    p := b'[start..start + |fs[i]|];
    var header, old' := BigEndian(|fs[i]|, HEADER_SIZE), fs[i];
    ReplaceMiddle(before, header, old', after, b, b');
    assert |p| == |old'|;
  }

  lemma ParseOtherMiddle(ps: seq<seq<Byte>>, p: seq<Byte>, p': seq<Byte>, after: seq<Byte>)
    requires Fits(p) && Fits(p') && forall q :: q in ps ==> Fits(q)
    ensures var l := Parse(Framed(ps) + (Frame(p) + after));
            |ps| < |l.frames| && Parse(Framed(ps) + (Frame(p') + after)) == Layout(l.frames[|ps| := p'], l.tail)
  {
    ParseMiddle(ps, p, after);
    ParseMiddle(ps, p', after);
    UpdateMiddle(ps, p, p', Parse(after).frames);
  }

  lemma ParseMiddle(ps: seq<seq<Byte>>, p: seq<Byte>, after: seq<Byte>)
    requires Fits(p) && forall q :: q in ps ==> Fits(q)
    ensures Parse(Framed(ps) + (Frame(p) + after)) == Layout(ps + ([p] + Parse(after).frames), Parse(after).tail)
  {
    ParseFramed(ps, Frame(p) + after);
    ParseFrame(p, after);
  }

  /** Replay of a damaged file: the entries before and after frame `i` are untouched, in order. */
  lemma DamageIsolation(c: Codec, checkpoint: nat, b: seq<Byte>, b': seq<Byte>, i: nat)
    requires i < |Parse(b).frames|
    requires DamagedInPayload(b, b', i)
    ensures |Parse(b').frames| == |Parse(b).frames| && Parse(b').tail == Parse(b).tail
    ensures forall j :: 0 <= j < |Parse(b).frames| && j != i ==>
              Judge(c, checkpoint, Parse(b').frames[j]) == Judge(c, checkpoint, Parse(b).frames[j])
    ensures var fs := Parse(b).frames;
            ReplayOf(c, checkpoint, b').entries
            == AcceptedEntries(c, checkpoint, fs[..i])
             + AcceptedEntries(c, checkpoint, [Parse(b').frames[i]])
             + AcceptedEntries(c, checkpoint, fs[i + 1..])
  {
    DamageKeepsLayout(b, b', i);
    var fs, fs' := Parse(b).frames, Parse(b').frames;
    assert fs' == fs[..i] + [fs'[i]] + fs[i + 1..];
    AcceptedConcat(c, checkpoint, fs[..i] + [fs'[i]], fs[i + 1..]);
    AcceptedConcat(c, checkpoint, fs[..i], [fs'[i]]);
  }

  // ---------------------------------------------------------------- logs of entries

  /** JSON gives back the entry without its monotonic reading. */
  ghost predicate RoundTrips(c: Codec, e: WalEntry) {
    c.marshal(e).Some? && c.unmarshal(c.marshal(e).value) == Some(Wire(e))
  }

  /** The checksum still verifies after the trip through JSON. */
  predicate Stable(c: Codec, e: WalEntry) {
    VerifyChecksum(c, Wire(e))
  }

  /** What `Write` can log and the reader will take up again; nothing is asked of the checksum. */
  ghost predicate Loggable(c: Codec, e: WalEntry) {
    RoundTrips(c, e) && Fits(c.marshal(e).value)
  }

  ghost predicate Marshals(c: Codec, es: seq<WalEntry>) {
    forall e :: e in es ==> c.marshal(e).Some?
  }

  ghost predicate AllLoggable(c: Codec, es: seq<WalEntry>)
    ensures AllLoggable(c, es) ==> Marshals(c, es)
  {
    forall e :: e in es ==> Loggable(c, e)
  }

  ghost function Payloads(c: Codec, es: seq<WalEntry>): (r: seq<seq<Byte>>)
    requires Marshals(c, es)
    ensures |r| == |es| && forall i :: 0 <= i < |es| ==> r[i] == c.marshal(es[i]).value
  {
    seq(|es|, i requires 0 <= i < |es| => c.marshal(es[i]).value)
  }

  ghost function Log(c: Codec, es: seq<WalEntry>): seq<Byte>
    requires Marshals(c, es)
  {
    Framed(Payloads(c, es))
  }

  /** Beyond the checkpoint, with a checksum that still verifies. */
  predicate Survives(c: Codec, checkpoint: nat, e: WalEntry) {
    e.sequence > checkpoint && Stable(c, e)
  }

  /** The entries that survive, as JSON returns them. */
  function Survivors(c: Codec, es: seq<WalEntry>, checkpoint: nat): seq<WalEntry> {
    if es == [] then []
    else (if Survives(c, checkpoint, es[0]) then [Wire(es[0])] else []) + Survivors(c, es[1..], checkpoint)
  }

  /** The entries beyond the checkpoint, as JSON returns them. */
  function Beyond(es: seq<WalEntry>, checkpoint: nat): seq<WalEntry> {
    if es == [] then []
    else (if es[0].sequence > checkpoint then [Wire(es[0])] else []) + Beyond(es[1..], checkpoint)
  }

  /** Bytes and number of the frames beyond the checkpoint whose checksum no longer verifies. */
  ghost function LostBytes(c: Codec, es: seq<WalEntry>, checkpoint: nat): nat
    requires Marshals(c, es)
  {
    if es == [] then 0
    else
      var here := if es[0].sequence > checkpoint && !Stable(c, es[0]) then HEADER_SIZE + |c.marshal(es[0]).value| else 0;
      here + LostBytes(c, es[1..], checkpoint)
  }

  function LostCount(c: Codec, es: seq<WalEntry>, checkpoint: nat): nat {
    if es == [] then 0
    else (if es[0].sequence > checkpoint && !Stable(c, es[0]) then 1 else 0) + LostCount(c, es[1..], checkpoint)
  }

  lemma JudgeOfLogged(c: Codec, checkpoint: nat, e: WalEntry)
    requires Loggable(c, e)
    ensures var v := Judge(c, checkpoint, c.marshal(e).value);
            && v == (if e.sequence <= checkpoint then BelowCheckpoint else if Stable(c, e) then Accepted(Wire(e)) else BadChecksum)
            && (IsCorrupt(v) <==> e.sequence > checkpoint && !Stable(c, e))
  {
  }

  /** Of a log of whole frames, the entries that survive are accepted and the unstable ones counted corrupt. */
  lemma {:induction false} VerdictsOfLog(c: Codec, checkpoint: nat, es: seq<WalEntry>)
    requires AllLoggable(c, es)
    ensures AcceptedEntries(c, checkpoint, Payloads(c, es)) == Survivors(c, es, checkpoint)
    ensures BytesWhere(c, checkpoint, Payloads(c, es), IsCorrupt) == LostBytes(c, es, checkpoint)
    ensures CountWhere(c, checkpoint, Payloads(c, es), IsCorrupt) == LostCount(c, es, checkpoint)
  {
    if es != [] {
      JudgeOfLogged(c, checkpoint, es[0]);
      VerdictsOfLog(c, checkpoint, es[1..]);
      assert Payloads(c, es)[1..] == Payloads(c, es[1..]);
    }
  }

  /** A cut inside the next frame leaves no whole frame. */
  lemma TornFrame(p: seq<Byte>, rest: seq<Byte>, n: nat)
    requires Fits(p) && n < |Frame(p)|
    ensures Parse((Frame(p) + rest)[..n]).frames == []
  {
    FrameHeader(p, rest);
    var b := (Frame(p) + rest)[..n];
    if n >= HEADER_SIZE {
      assert b[..HEADER_SIZE] == (Frame(p) + rest)[..HEADER_SIZE];
    }
  }

  lemma {:induction false} TornLayout(ps: seq<seq<Byte>>, n: nat) returns (k: nat)
    requires forall p :: p in ps ==> Fits(p)
    requires n <= |Framed(ps)|
    ensures k <= |ps| && Parse(Framed(ps)[..n]).frames == ps[..k]
    ensures forall i :: 0 <= i < |ps| ==> (i < k <==> FrameEnd(ps, i) <= n)
  {
    if ps == [] {
      k := 0;
    } else {
      var size := |Frame(ps[0])|;
      if n < size {
        k := 0;
        TornFrame(ps[0], Framed(ps[1..]), n);
        forall i | 0 <= i < |ps| ensures FrameEnd(ps, i) >= size { FrameEndCons(ps, i); }
      } else {
        var k' := TornLayout(ps[1..], n - size);
        k := k' + 1;
        WholeFirstFrame(ps, n);
        TakeCons(ps, k);
        forall i | 0 <= i < |ps| ensures i < k <==> FrameEnd(ps, i) <= n {
          FrameEndCons(ps, i);
        }
      }
    }
  }

  /** A cut at or past the end of the first frame. */
  lemma WholeFirstFrame(ps: seq<seq<Byte>>, n: nat)
    requires ps != [] && Fits(ps[0]) && |Frame(ps[0])| <= n <= |Framed(ps)|
    ensures Parse(Framed(ps)[..n]) == Prepend(ps[0], Parse(Framed(ps[1..])[..n - |Frame(ps[0])|]))
  {
    TakeAfter(Frame(ps[0]), Framed(ps[1..]), n);
    ParseFrame(ps[0], Framed(ps[1..])[..n - |Frame(ps[0])|]);
  }

  lemma FrameEndCons(ps: seq<seq<Byte>>, i: nat)
    requires i < |ps|
    ensures FrameEnd(ps, i) == |Frame(ps[0])| + if i == 0 then 0 else FrameEnd(ps[1..], i - 1)
  {
    TakeCons(ps, i + 1);
    FramedPrepend(ps[0], Layout(ps[1..][..i], Clean));
  }

  lemma PayloadsFit(c: Codec, es: seq<WalEntry>)
    requires AllLoggable(c, es)
    ensures forall p :: p in Payloads(c, es) ==> Fits(p)
  {
    var ps := Payloads(c, es);
    forall p | p in ps ensures Fits(p) {
      var i :| 0 <= i < |es| && p == ps[i];
      assert Loggable(c, es[i]);
    }
  }

  /**
   For a log cut at any byte, replay returns exactly the entries whose frames lie wholly before the
   cut, whose sequence exceeds the checkpoint and whose checksum still verifies, in write order.
   */
  lemma TornTailRecovery(c: Codec, checkpoint: nat, es: seq<WalEntry>, n: nat) returns (k: nat)
    requires AllLoggable(c, es)
    requires n <= |Log(c, es)|
    ensures k <= |es|
    ensures forall i :: 0 <= i < |es| ==> (i < k <==> FrameEnd(Payloads(c, es), i) <= n)
    ensures ReplayOf(c, checkpoint, Log(c, es)[..n]).entries == Survivors(c, es[..k], checkpoint)
  {
    PayloadsFit(c, es);
    k := TornLayout(Payloads(c, es), n);
    assert Payloads(c, es[..k]) == Payloads(c, es)[..k];
    VerdictsOfLog(c, checkpoint, es[..k]);
  }

  /** The uncut log: what survives comes back, and exactly the unstable entries are counted corrupt. */
  lemma WholeLogRecovery(c: Codec, checkpoint: nat, es: seq<WalEntry>)
    requires AllLoggable(c, es)
    ensures Parse(Log(c, es)) == Layout(Payloads(c, es), Clean)
    ensures ReplayOf(c, checkpoint, Log(c, es))
            == Replay(Survivors(c, es, checkpoint), LostBytes(c, es, checkpoint), LostCount(c, es, checkpoint))
  {
    PayloadsFit(c, es);
    ParseFramedAlone(Payloads(c, es));
    VerdictsOfLog(c, checkpoint, es);
  }

  // ---------------------------------------------------------------- the monotonic reading

  lemma {:induction false} SurvivorsOfStable(c: Codec, es: seq<WalEntry>, checkpoint: nat)
    ensures |Survivors(c, es, checkpoint)| <= |Beyond(es, checkpoint)|
    ensures |Survivors(c, es, checkpoint)| == |Beyond(es, checkpoint)| <==>
            forall i :: 0 <= i < |es| && es[i].sequence > checkpoint ==> Stable(c, es[i])
    ensures |Survivors(c, es, checkpoint)| == |Beyond(es, checkpoint)| ==>
              Survivors(c, es, checkpoint) == Beyond(es, checkpoint)
  {
    if es != [] {
      SurvivorsOfStable(c, es[1..], checkpoint);
      assert forall i :: 0 < i < |es| ==> es[i] == es[1..][i - 1];
    }
  }

  /** A log gives back everything beyond the checkpoint exactly when every such checksum still verifies. */
  lemma NothingLostIff(c: Codec, checkpoint: nat, es: seq<WalEntry>)
    requires AllLoggable(c, es)
    ensures ReplayOf(c, checkpoint, Log(c, es)).entries == Beyond(es, checkpoint) <==>
            forall i :: 0 <= i < |es| && es[i].sequence > checkpoint ==> Stable(c, es[i])
  {
    WholeLogRecovery(c, checkpoint, es);
    SurvivorsOfStable(c, es, checkpoint);
  }

  /**
   `Write` computes the checksum over Timestamp.String(), which prints the clock's monotonic reading;
   JSON drops it.  A stamped entry stays verifiable exactly when the hash does not see that reading.
   */
  lemma StampedIsStableIff(c: Codec, e: WalEntry)
    requires e.checksum == ComputeChecksum(c, e)
    ensures Stable(c, e) <==> c.hash(e.sequence, e.key, e.value, e.timestamp, e.operation)
                              == c.hash(e.sequence, e.key, e.value, e.timestamp.(monotonic := None), e.operation)
  {
  }

  /** Bytes and number of all frames beyond the checkpoint. */
  ghost function BytesBeyond(c: Codec, es: seq<WalEntry>, checkpoint: nat): nat
    requires Marshals(c, es)
  {
    if es == [] then 0
    else (if es[0].sequence > checkpoint then HEADER_SIZE + |c.marshal(es[0]).value| else 0) + BytesBeyond(c, es[1..], checkpoint)
  }

  /** The hash of each entry sees its monotonic reading. */
  predicate ReadingsSeen(c: Codec, es: seq<WalEntry>) {
    forall i :: 0 <= i < |es| ==>
      && es[i].checksum == ComputeChecksum(c, es[i])
      && ComputeChecksum(c, es[i]) != ComputeChecksum(c, Wire(es[i]))
  }

  lemma {:induction false} NothingSurvives(c: Codec, es: seq<WalEntry>, checkpoint: nat)
    requires ReadingsSeen(c, es) && Marshals(c, es)
    ensures Survivors(c, es, checkpoint) == []
    ensures LostBytes(c, es, checkpoint) == BytesBeyond(c, es, checkpoint)
    ensures LostCount(c, es, checkpoint) == |Beyond(es, checkpoint)|
  {
    if es != [] {
      assert !Stable(c, es[0]);
      NothingSurvives(c, es[1..], checkpoint);
    }
  }

  /** Where the hash sees the reading, replay returns nothing and counts every frame beyond the checkpoint corrupt. */
  lemma SeenReadingsLoseTheLog(c: Codec, checkpoint: nat, es: seq<WalEntry>)
    requires AllLoggable(c, es) && ReadingsSeen(c, es)
    ensures ReplayOf(c, checkpoint, Log(c, es)) == Replay([], BytesBeyond(c, es, checkpoint), |Beyond(es, checkpoint)|)
  {
    WholeLogRecovery(c, checkpoint, es);
    NothingSurvives(c, es, checkpoint);
  }

  // One entry, stamped at wall clock 5 and monotonic reading 7, and a hash that adds up what it is given.

  const SAMPLE_ENTRY := WalEntry(1, Timestamp(5, Some(7)), OP_SET, "k", [1], map[], 0, 13)

  const SAMPLE_CODEC := Codec(
    (e: WalEntry) => if Wire(e) == Wire(SAMPLE_ENTRY) then Some([42]) else None,
    (b: seq<Byte>) => if b == [42] then Some(Wire(SAMPLE_ENTRY)) else None,
    (n: nat, k: string, v: seq<Byte>, t: Timestamp, op: int) =>
      n + (match t.monotonic case None => 5 case Some(m) => if m > 0 then 5 + m else 5))

  /** The failure has an input: a stamped, logged entry that replay counts corrupt. */
  lemma StampedEntryIsLost()
    ensures Loggable(SAMPLE_CODEC, SAMPLE_ENTRY) && VerifyChecksum(SAMPLE_CODEC, SAMPLE_ENTRY)
    ensures Marshals(SAMPLE_CODEC, [SAMPLE_ENTRY])
    ensures ReplayOf(SAMPLE_CODEC, 0, Log(SAMPLE_CODEC, [SAMPLE_ENTRY])) == Replay([], HEADER_SIZE + 1, 1)
  {
    var es := [SAMPLE_ENTRY];
    assert Loggable(SAMPLE_CODEC, SAMPLE_ENTRY);
    assert AllLoggable(SAMPLE_CODEC, es) && es[1..] == [];
    assert ComputeChecksum(SAMPLE_CODEC, Wire(SAMPLE_ENTRY)) == 6;
    SeenReadingsLoseTheLog(SAMPLE_CODEC, 0, es);
    assert Beyond(es, 0) == [Wire(SAMPLE_ENTRY)];
  }
}
