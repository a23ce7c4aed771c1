/**
 Sequence numbers and checkpoints over whole runs of the recovery manager, restarts included
 (pkg/replay/recovery.go).  Every action is one of the manager's operations; asynchronous
 checkpoints read the number and write their file in two separate actions.
 */
module WalRuns {
  import opened Bytes
  import opened Sequences
  import opened WalFormat
  import opened WalManager

  /** The manager and its files; `written` and `failed` record what the calls to `Write` returned. */
  datatype State = State(
    sequence: nat,
    log: seq<Byte>,
    files: seq<Option<nat>>,
    pending: set<nat>,
    written: seq<WalEntry>,
    failed: set<nat>)

  datatype Action =
    | Write(entry: WalEntry, now: Timestamp, io: Append)
    | BeginCheckpoint
    | EndCheckpoint(seqNo: nat)
    | Restart

  const EMPTY := State(0, [], [], {}, [], {})

  function Accepted(c: Codec, s: State): seq<WalEntry> {
    ReplayOf(c, Latest(s.files), s.log).entries
  }

  /** A restart builds a new manager, whose number is 0, and recovers. */
  function Next(c: Codec, s: State, a: Action): State {
    match a
    case Write(entry, now, io) =>
      var e := Stamp(c, s.sequence, entry, now);
      var s' := s.(sequence := s.sequence + 1, log := s.log + Landed(c, e, io));
      if WriteSucceeds(c, e, io) then s'.(written := s.written + [e]) else s'.(failed := s.failed + {e.sequence})
    case BeginCheckpoint => s.(pending := s.pending + {s.sequence})
    case EndCheckpoint(n) =>
      if n in s.pending then s.(pending := s.pending - {n}, files := s.files + [Some(n)]) else s
    case Restart => s.(pending := {}, sequence := Resumed(0, Accepted(c, s)))
  }

  function Exec(c: Codec, s: State, acts: seq<Action>): State
    decreases acts
  {
    if acts == [] then s else Exec(c, Next(c, s, acts[0]), acts[1..])
  }

  /** Nothing was ever logged and no checkpoint exists. */
  predicate Fresh(s: State) {
    s.written == [] && Latest(s.files) == 0
  }

  /** The restart hands out the last entry logged, so it resumes where numbering stood. */
  predicate ResumesAtLast(c: Codec, s: State) {
    var accepted := Accepted(c, s);
    && s.written != [] && accepted != []
    && accepted[|accepted| - 1].sequence == s.written[|s.written| - 1].sequence
  }

  /** A write leaves one whole frame that reads back, or nothing. */
  ghost predicate WholeWrite(c: Codec, s: State, a: Action) {
    a.Write? ==>
      var e := Stamp(c, s.sequence, a.entry, a.now);
      if WriteSucceeds(c, e, a.io) then Loggable(c, e) else Landed(c, e, a.io) == []
  }

  /** Writes are whole; a restart finds the last entry logged to resume from. */
  ghost predicate Admissible(c: Codec, s: State, a: Action) {
    WholeWrite(c, s, a) && (a.Restart? ==> ResumesAtLast(c, s) || Fresh(s))
  }

  ghost predicate AdmissibleRun(c: Codec, s: State, acts: seq<Action>)
    decreases acts
  {
    acts == [] || (Admissible(c, s, acts[0]) && AdmissibleRun(c, Next(c, s, acts[0]), acts[1..]))
  }

  predicate Increasing(es: seq<WalEntry>) {
    forall i, j :: 0 <= i < j < |es| ==> es[i].sequence < es[j].sequence
  }

  ghost predicate Numbered(es: seq<WalEntry>, n: nat) {
    exists i :: 0 <= i < |es| && es[i].sequence == n
  }

  ghost predicate Inv(c: Codec, s: State) {
    && AllLoggable(c, s.written)
    && s.log == Log(c, s.written)
    && Increasing(s.written)
    && (forall i :: 0 <= i < |s.written| ==> 0 < s.written[i].sequence <= s.sequence)
    && (forall n :: Some(n) in s.files ==> n <= s.sequence)
    && (forall n :: n in s.pending ==> n <= s.sequence)
    && (forall n :: 0 < n <= s.sequence ==> n in s.failed || Numbered(s.written, n))
  }

  // ---------------------------------------------------------------- one action

  lemma {:induction false} SurvivorNumbers(c: Codec, es: seq<WalEntry>, checkpoint: nat)
    ensures forall x :: x in Survivors(c, es, checkpoint) ==>
              exists i :: 0 <= i < |es| && Survives(c, checkpoint, es[i]) && es[i].sequence == x.sequence
  {
    if es != [] {
      SurvivorNumbers(c, es[1..], checkpoint);
      forall x | x in Survivors(c, es, checkpoint)
        ensures exists i :: 0 <= i < |es| && Survives(c, checkpoint, es[i]) && es[i].sequence == x.sequence
      {
        if x in Survivors(c, es[1..], checkpoint) {
          var k :| 0 <= k < |es[1..]| && Survives(c, checkpoint, es[1..][k]) && es[1..][k].sequence == x.sequence;
          assert Survives(c, checkpoint, es[k + 1]);
        } else {
          assert Survives(c, checkpoint, es[0]);
        }
      }
    }
  }

  lemma ConsIncreasing(x: WalEntry, rest: seq<WalEntry>)
    requires Increasing(rest) && forall i :: 0 <= i < |rest| ==> x.sequence < rest[i].sequence
    ensures Increasing([x] + rest)
  {
    var es := [x] + rest;
    assert es[1..] == rest;
    forall i, j | 0 <= i < j < |es| ensures es[i].sequence < es[j].sequence {
      assert es[j] == rest[j - 1];
      if i > 0 {
        assert es[i] == rest[i - 1];
      }
    }
  }

  lemma {:induction false} SurvivorsIncrease(c: Codec, es: seq<WalEntry>, checkpoint: nat)
    requires Increasing(es)
    ensures Increasing(Survivors(c, es, checkpoint))
  {
    if es != [] {
      var rest := Survivors(c, es[1..], checkpoint);
      SurvivorsIncrease(c, es[1..], checkpoint);
      SurvivorNumbers(c, es[1..], checkpoint);
      forall i | 0 <= i < |rest| ensures es[0].sequence < rest[i].sequence {
        assert rest[i] in rest;
        var k :| 0 <= k < |es[1..]| && Survives(c, checkpoint, es[1..][k]) && es[1..][k].sequence == rest[i].sequence;
        assert es[k + 1].sequence == rest[i].sequence;
      }
      ConsIncreasing(Wire(es[0]), rest);
      NothingFirst(rest);
    }
  }

  lemma {:induction false} SurvivorsConcat(c: Codec, es: seq<WalEntry>, fs: seq<WalEntry>, checkpoint: nat)
    ensures Survivors(c, es + fs, checkpoint) == Survivors(c, es, checkpoint) + Survivors(c, fs, checkpoint)
  {
    if es == [] {
      NothingFirst(fs);
    } else {
      SurvivorsConcat(c, es[1..], fs, checkpoint);
      ConcatTail(es, fs);
      var here := if Survives(c, checkpoint, es[0]) then [Wire(es[0])] else [];
      Associate(here, Survivors(c, es[1..], checkpoint), Survivors(c, fs, checkpoint));
    }
  }

  lemma LargestIsLast(es: seq<WalEntry>, i: nat)
    requires Increasing(es) && i < |es|
    ensures es[i].sequence <= es[|es| - 1].sequence
    ensures es[i].sequence == es[|es| - 1].sequence ==> i == |es| - 1
  {
  }

  /** The last number handed out is that of an entry that survives, so at most the last one logged. */
  lemma LastHandedOut(c: Codec, es: seq<WalEntry>, checkpoint: nat)
    requires Increasing(es) && Survivors(c, es, checkpoint) != []
    ensures var r := Survivors(c, es, checkpoint);
            && es != [] && checkpoint < r[|r| - 1].sequence <= es[|es| - 1].sequence
            && (r[|r| - 1].sequence == es[|es| - 1].sequence ==> Survives(c, checkpoint, es[|es| - 1]))
  {
    var r := Survivors(c, es, checkpoint);
    SurvivorNumbers(c, es, checkpoint);
    assert r[|r| - 1] in r;
    var i :| 0 <= i < |es| && Survives(c, checkpoint, es[i]) && es[i].sequence == r[|r| - 1].sequence;
    LargestIsLast(es, i);
  }

  lemma LastComesLast(c: Codec, front: seq<WalEntry>, last: WalEntry, checkpoint: nat)
    requires Survives(c, checkpoint, last)
    ensures var r := Survivors(c, front + [last], checkpoint); r != [] && r[|r| - 1] == Wire(last)
  {
    SurvivorsConcat(c, front, [last], checkpoint);
    assert [last][1..] == [];
  }

  /** What a replay hands out last has the last number logged exactly when the last entry survives. */
  lemma LastSurvivor(c: Codec, es: seq<WalEntry>, checkpoint: nat)
    requires Increasing(es) && es != []
    ensures var r := Survivors(c, es, checkpoint);
            Survives(c, checkpoint, es[|es| - 1]) <==> r != [] && r[|r| - 1].sequence == es[|es| - 1].sequence
  {
    if Survives(c, checkpoint, es[|es| - 1]) {
      assert es == es[..|es| - 1] + [es[|es| - 1]];
      LastComesLast(c, es[..|es| - 1], es[|es| - 1], checkpoint);
    } else if Survivors(c, es, checkpoint) != [] {
      LastHandedOut(c, es, checkpoint);
    }
  }

  /** On a disciplined log, a restart hands out exactly the logged entries that survive, in increasing order. */
  lemma AcceptedSurvive(c: Codec, s: State)
    requires Inv(c, s)
    ensures Accepted(c, s) == Survivors(c, s.written, Latest(s.files))
    ensures Increasing(Accepted(c, s))
  {
    WholeLogRecovery(c, Latest(s.files), s.written);
    SurvivorsIncrease(c, s.written, Latest(s.files));
  }

  /** A restart resumes at the last number logged exactly when that entry is beyond the checkpoint and stable. */
  lemma ResumesAtLastIff(c: Codec, s: State)
    requires Inv(c, s)
    ensures ResumesAtLast(c, s) <==>
            s.written != [] && Survives(c, Latest(s.files), s.written[|s.written| - 1])
  {
    AcceptedSurvive(c, s);
    if s.written != [] {
      LastSurvivor(c, s.written, Latest(s.files));
    }
  }

  /** Where every checksum still verifies, accepting anything at all is enough. */
  lemma StableLogResumes(c: Codec, s: State)
    requires Inv(c, s) && forall i :: 0 <= i < |s.written| ==> Stable(c, s.written[i])
    ensures ResumesAtLast(c, s) <==> Accepted(c, s) != []
  {
    ResumesAtLastIff(c, s);
    AcceptedSurvive(c, s);
    if Accepted(c, s) != [] {
      SurvivorNumbers(c, s.written, Latest(s.files));
      assert Accepted(c, s)[0] in Accepted(c, s);
      var i :| 0 <= i < |s.written| && Survives(c, Latest(s.files), s.written[i]);
      LargestIsLast(s.written, i);
    }
  }

  /** Such a restart changes nothing but the number, which becomes the last one logged, beyond the checkpoint. */
  lemma RestartResumes(c: Codec, s: State)
    requires Inv(c, s) && ResumesAtLast(c, s)
    ensures Next(c, s, Restart) == s.(pending := {}, sequence := s.written[|s.written| - 1].sequence)
    ensures Next(c, s, Restart).sequence > Latest(s.files)
  {
    ResumesAtLastIff(c, s);
  }

  lemma RestartKeepsInv(c: Codec, s: State)
    requires Inv(c, s) && Admissible(c, s, Restart)
    ensures Inv(c, Next(c, s, Restart))
  {
    if ResumesAtLast(c, s) {
      RestartResumes(c, s);
    } else {
      AcceptedSurvive(c, s);
    }
    var s' := Next(c, s, Restart);
    forall i | 0 <= i < |s.written| ensures s.written[i].sequence <= s'.sequence {
      assert i < |s.written| - 1 ==> s.written[i].sequence < s.written[|s.written| - 1].sequence;
    }
  }

  lemma LogSnoc(c: Codec, es: seq<WalEntry>, e: WalEntry)
    requires AllLoggable(c, es) && Loggable(c, e)
    ensures AllLoggable(c, es + [e])
    ensures Log(c, es + [e]) == Log(c, es) + Frame(c.marshal(e).value)
  {
    assert Payloads(c, es + [e]) == Payloads(c, es) + [c.marshal(e).value];
    FramedSnoc(Payloads(c, es), c.marshal(e).value);
  }

  /** Logging the next number keeps the log in order and leaves no number out. */
  lemma WrittenNumbers(es: seq<WalEntry>, e: WalEntry, n: nat, failed: set<nat>)
    requires Increasing(es) && e.sequence == n + 1
    requires forall i :: 0 <= i < |es| ==> 0 < es[i].sequence <= n
    requires forall k :: 0 < k <= n ==> k in failed || Numbered(es, k)
    ensures Increasing(es + [e])
    ensures forall i :: 0 <= i < |es + [e]| ==> 0 < (es + [e])[i].sequence <= n + 1
    ensures forall k :: 0 < k <= n + 1 ==> k in failed || Numbered(es + [e], k)
  {
    var fs := es + [e];
    assert fs[|es|].sequence == n + 1;
    forall k | 0 < k <= n && k !in failed ensures Numbered(fs, k) {
      var i :| 0 <= i < |es| && es[i].sequence == k;
      assert fs[i].sequence == k;
    }
  }

  /** An append that breaks inside its frame is dropped by the next recovery, which hands out what was logged before. */
  lemma TornAppendIsDropped(c: Codec, checkpoint: nat, es: seq<WalEntry>, e: WalEntry, n: nat)
    requires AllLoggable(c, es) && Loggable(c, e) && n < |Frame(c.marshal(e).value)|
    ensures ReplayOf(c, checkpoint, Log(c, es) + Landed(c, e, Broken(n))).entries == Survivors(c, es, checkpoint)
  {
    var all, frame := es + [e], Frame(c.marshal(e).value);
    LogSnoc(c, es, e);
    TakeAfter(Log(c, es), frame, |Log(c, es)| + n);
    var k := TornTailRecovery(c, checkpoint, all, |Log(c, es)| + n);
    assert Payloads(c, all)[..|es|] == Payloads(c, es) && Payloads(c, all)[..|all|] == Payloads(c, all);
    assert FrameEnd(Payloads(c, all), |es|) == |Log(c, all)|;
    assert es != [] ==> FrameEnd(Payloads(c, all), |es| - 1) == |Log(c, es)|;
    assert k == |es| && all[..k] == es;
  }

  lemma WriteKeepsInv(c: Codec, s: State, a: Action)
    requires Inv(c, s) && a.Write? && Admissible(c, s, a)
    ensures Inv(c, Next(c, s, a))
  {
    var e := Stamp(c, s.sequence, a.entry, a.now);
    if WriteSucceeds(c, e, a.io) {
      WrittenState(c, s, a);
      WrittenNumbers(s.written, e, s.sequence, s.failed);
    } else {
      AppendNothing(s.log);
    }
  }

  lemma StepKeepsInv(c: Codec, s: State, a: Action)
    requires Inv(c, s) && Admissible(c, s, a)
    ensures Inv(c, Next(c, s, a))
  {
    match a
    case Write(_, _, _) => WriteKeepsInv(c, s, a);
    case Restart => RestartKeepsInv(c, s);
    case _ =>
  }

  // ---------------------------------------------------------------- whole runs

  lemma {:induction false} RunKeepsInv(c: Codec, s: State, acts: seq<Action>)
    requires Inv(c, s) && AdmissibleRun(c, s, acts)
    ensures Inv(c, Exec(c, s, acts))
    decreases acts
  {
    if acts != [] {
      StepKeepsInv(c, s, acts[0]);
      RunKeepsInv(c, Next(c, s, acts[0]), acts[1..]);
    }
  }

  /**
   Over any number of writes, checkpoints and restarts: logged numbers strictly increase, a replay
   returns exactly the entries beyond the checkpoint that survive, no checkpoint is ahead of the
   counter, and every number at or below one was logged or had its `Write` return an error.
   */
  lemma SequenceDiscipline(c: Codec, acts: seq<Action>)
    requires AdmissibleRun(c, EMPTY, acts)
    ensures var s := Exec(c, EMPTY, acts);
            && Increasing(s.written)
            && Accepted(c, s) == Survivors(c, s.written, Latest(s.files)) && Increasing(Accepted(c, s))
            && (forall n :: Some(n) in s.files ==> n <= s.sequence)
            && (forall n :: 0 < n <= Latest(s.files) ==> n in s.failed || Numbered(s.written, n))
  {
    RunKeepsInv(c, EMPTY, acts);
    AcceptedSurvive(c, Exec(c, EMPTY, acts));
  }

  /** Whole writes whose checksums verify again after JSON; a restart accepts something or has nothing to find. */
  ghost predicate StableAction(c: Codec, s: State, a: Action) {
    && WholeWrite(c, s, a)
    && (a.Write? ==> var e := Stamp(c, s.sequence, a.entry, a.now); WriteSucceeds(c, e, a.io) ==> Stable(c, e))
    && (a.Restart? ==> Accepted(c, s) != [] || Fresh(s))
  }

  ghost predicate StableRun(c: Codec, s: State, acts: seq<Action>)
    decreases acts
  {
    acts == [] || (StableAction(c, s, acts[0]) && StableRun(c, Next(c, s, acts[0]), acts[1..]))
  }

  ghost predicate AllStable(c: Codec, s: State) {
    Inv(c, s) && forall i :: 0 <= i < |s.written| ==> Stable(c, s.written[i])
  }

  lemma StableStep(c: Codec, s: State, a: Action)
    requires AllStable(c, s) && StableAction(c, s, a)
    ensures Admissible(c, s, a) && AllStable(c, Next(c, s, a))
  {
    if a.Restart? {
      StableLogResumes(c, s);
    }
    StepKeepsInv(c, s, a);
  }

  /** On a log whose checksums all verify every restart that accepts anything is in order. */
  lemma {:induction false} StableRunAdmissible(c: Codec, s: State, acts: seq<Action>)
    requires AllStable(c, s) && StableRun(c, s, acts)
    ensures AdmissibleRun(c, s, acts) && AllStable(c, Exec(c, s, acts))
    decreases acts
  {
    if acts != [] {
      StableStep(c, s, acts[0]);
      StableRunAdmissible(c, Next(c, s, acts[0]), acts[1..]);
    }
  }

  lemma {:induction false} StableSurvivors(c: Codec, es: seq<WalEntry>, checkpoint: nat)
    requires forall i :: 0 <= i < |es| ==> Stable(c, es[i])
    ensures Survivors(c, es, checkpoint) == Beyond(es, checkpoint)
  {
    if es != [] {
      StableSurvivors(c, es[1..], checkpoint);
    }
  }

  /** Over such runs the discipline holds, and a recovery loses nothing beyond the checkpoint. */
  lemma StableDiscipline(c: Codec, acts: seq<Action>)
    requires StableRun(c, EMPTY, acts)
    ensures var s := Exec(c, EMPTY, acts);
            && Increasing(s.written)
            && Accepted(c, s) == Beyond(s.written, Latest(s.files))
            && (forall n :: Some(n) in s.files ==> n <= s.sequence)
            && (forall n :: 0 < n <= Latest(s.files) ==> n in s.failed || Numbered(s.written, n))
  {
    StableRunAdmissible(c, EMPTY, acts);
    SequenceDiscipline(c, acts);
    var s := Exec(c, EMPTY, acts);
    StableSurvivors(c, s.written, Latest(s.files));
  }

  /** What was added to a list of entries has numbers beyond `n`. */
  predicate AddedBeyond(es: seq<WalEntry>, fs: seq<WalEntry>, n: nat) {
    es <= fs && forall i :: |es| <= i < |fs| ==> fs[i].sequence > n
  }

  lemma AddedTransitive(es: seq<WalEntry>, fs: seq<WalEntry>, gs: seq<WalEntry>, m: nat, n: nat)
    requires AddedBeyond(es, fs, m) && AddedBeyond(fs, gs, n) && m <= n
    ensures AddedBeyond(es, gs, m)
  {
    forall i | |es| <= i < |gs| ensures gs[i].sequence > m {
      if i < |fs| {
        assert gs[i] == fs[i];
      }
    }
  }

  lemma NumberGrows(c: Codec, s: State, a: Action)
    requires a != Restart
    ensures Next(c, s, a).sequence >= s.sequence && AddedBeyond(s.written, Next(c, s, a).written, s.sequence)
  {
  }

  /** Until the next restart, the counter never falls and every entry logged gets a larger number. */
  lemma {:induction false} NumbersGrow(c: Codec, s: State, acts: seq<Action>)
    requires Restart !in acts
    ensures Exec(c, s, acts).sequence >= s.sequence
    ensures AddedBeyond(s.written, Exec(c, s, acts).written, s.sequence)
    decreases acts
  {
    if acts != [] {
      var s' := Next(c, s, acts[0]);
      NumberGrows(c, s, acts[0]);
      NumbersGrow(c, s', acts[1..]);
      AddedTransitive(s.written, s'.written, Exec(c, s, acts).written, s.sequence, s'.sequence);
    }
  }

  /** Everything logged after a restart exceeds the checkpoint that restart found. */
  lemma NewEntriesExceedCheckpoint(c: Codec, s: State, after: seq<Action>)
    requires Inv(c, s) && ResumesAtLast(c, s) && Restart !in after
    ensures var t := Exec(c, Next(c, s, Restart), after);
            forall i :: |s.written| <= i < |t.written| ==> t.written[i].sequence > Latest(s.files)
  {
    RestartResumes(c, s);
    NumbersGrow(c, Next(c, s, Restart), after);
  }

  // ---------------------------------------------------------------- checkpoints

  lemma {:induction false} NoSurvivors(c: Codec, es: seq<WalEntry>, checkpoint: nat)
    requires forall i :: 0 <= i < |es| ==> !Survives(c, checkpoint, es[i])
    ensures Survivors(c, es, checkpoint) == []
  {
    if es != [] {
      NoSurvivors(c, es[1..], checkpoint);
    }
  }

  /**
   A checkpoint hides exactly what had been logged when it was begun, however late its file appears
   and whatever is written meanwhile: later entries all have larger numbers and stay.
   */
  lemma CheckpointDividesTheLog(c: Codec, s: State, acts: seq<Action>)
    requires Inv(c, s) && AdmissibleRun(c, s, acts) && Restart !in acts
    requires Latest(Exec(c, s, acts).files) == s.sequence
    ensures var t := Exec(c, s, acts);
            && s.written <= t.written
            && Accepted(c, t) == Survivors(c, t.written[|s.written|..], s.sequence)
            && forall i :: |s.written| <= i < |t.written| ==> t.written[i].sequence > s.sequence
  {
    var t := Exec(c, s, acts);
    RunKeepsInv(c, s, acts);
    NumbersGrow(c, s, acts);
    AcceptedSurvive(c, t);
    PrefixSplit(s.written, t.written);
    SurvivorsConcat(c, s.written, t.written[|s.written|..], s.sequence);
    NoSurvivors(c, s.written, s.sequence);
    NothingFirst(Survivors(c, t.written[|s.written|..], s.sequence));
  }

  /** The two halves of one checkpoint around any writes. */
  lemma CheckpointTaken(c: Codec, s: State, acts: seq<Action>)
    requires Inv(c, s) && AdmissibleRun(c, s, [BeginCheckpoint] + acts + [EndCheckpoint(s.sequence)])
    requires forall a :: a in acts ==> a.Write?
    ensures var t := Exec(c, s, [BeginCheckpoint] + acts + [EndCheckpoint(s.sequence)]);
            && Latest(t.files) == s.sequence && |s.written| <= |t.written|
            && Accepted(c, t) == Survivors(c, t.written[|s.written|..], s.sequence)
  {
    var run := [BeginCheckpoint] + acts + [EndCheckpoint(s.sequence)];
    var t, u := Exec(c, s, run), Next(c, s, BeginCheckpoint);
    assert run == [BeginCheckpoint] + (acts + [EndCheckpoint(s.sequence)]);
    assert run[1..] == acts + [EndCheckpoint(s.sequence)];
    WritesKeepFiles(c, u, acts);
    ExecConcat(c, u, acts, [EndCheckpoint(s.sequence)]);
    var v := Exec(c, u, acts);
    assert [EndCheckpoint(s.sequence)][1..] == [];
    assert t == Next(c, v, EndCheckpoint(s.sequence));
    assert Some(s.sequence) in t.files;
    assert Latest(t.files) == s.sequence;
    assert Restart !in run;
    CheckpointDividesTheLog(c, s, run);
  }

  lemma {:induction false} WritesKeepFiles(c: Codec, s: State, acts: seq<Action>)
    requires forall a :: a in acts ==> a.Write?
    ensures Exec(c, s, acts).files == s.files && Exec(c, s, acts).pending == s.pending
    decreases acts
  {
    if acts != [] {
      assert acts[0] in acts;
      WritesKeepFiles(c, Next(c, s, acts[0]), acts[1..]);
    }
  }

  lemma {:induction false} ExecConcat(c: Codec, s: State, a: seq<Action>, b: seq<Action>)
    ensures Exec(c, s, a + b) == Exec(c, Exec(c, s, a), b)
    decreases a
  {
    if a == [] {
      NothingFirst(b);
    } else {
      assert (a + b)[1..] == a[1..] + b;
      ExecConcat(c, Next(c, s, a[0]), a[1..], b);
    }
  }

  // ---------------------------------------------------------------- restarts that lose their place

  /** The next number to be handed out is new to the log and beyond every checkpoint. */
  ghost predicate NextNumberIsNew(s: State) {
    && (forall i :: 0 <= i < |s.written| ==> s.written[i].sequence < s.sequence + 1)
    && Latest(s.files) < s.sequence + 1
  }

  /**
   A restart from a disciplined state leaves a usable counter exactly when it accepted the last entry
   logged or had nothing to lose.  If it accepted nothing, numbering starts over at 1.
   */
  lemma RestartNumberIsNewIff(c: Codec, s: State)
    requires Inv(c, s)
    ensures NextNumberIsNew(Next(c, s, Restart)) <==> ResumesAtLast(c, s) || Fresh(s)
    ensures Accepted(c, s) == [] ==> Next(c, s, Restart).sequence == 0
  {
    NewNumberResumes(c, s);
    if ResumesAtLast(c, s) || Fresh(s) {
      RestartKeepsInv(c, s);
    }
  }

  lemma NewNumberResumes(c: Codec, s: State)
    requires Inv(c, s)
    ensures NextNumberIsNew(Next(c, s, Restart)) ==> ResumesAtLast(c, s) || Fresh(s)
  {
    AcceptedSurvive(c, s);
    var t := Next(c, s, Restart);
    NewNumberIsLarge(t);
    if Accepted(c, s) != [] {
      LastHandedOut(c, s.written, Latest(s.files));
    }
  }

  lemma NewNumberIsLarge(s: State)
    requires forall i :: 0 <= i < |s.written| ==> 0 < s.written[i].sequence
    ensures NextNumberIsNew(s) ==> s.written == [] || 0 < s.written[|s.written| - 1].sequence <= s.sequence
    ensures NextNumberIsNew(s) ==> Latest(s.files) <= s.sequence
  {
  }

  lemma {:induction false} AcceptedExceed(c: Codec, checkpoint: nat, frames: seq<seq<Byte>>)
    ensures forall x :: x in AcceptedEntries(c, checkpoint, frames) ==> x.sequence > checkpoint
  {
    if frames != [] {
      AcceptedExceed(c, checkpoint, frames[1..]);
    }
  }

  /** Whatever happens, checkpoints are not taken back and the log only grows. */
  lemma {:induction false} FilesAndLogGrow(c: Codec, s: State, acts: seq<Action>)
    ensures var t := Exec(c, s, acts);
            s.log <= t.log && s.written <= t.written && Latest(s.files) <= Latest(t.files)
    decreases acts
  {
    if acts != [] {
      StepGrows(c, s, acts[0]);
      FilesAndLogGrow(c, Next(c, s, acts[0]), acts[1..]);
    }
  }

  lemma StepGrows(c: Codec, s: State, a: Action)
    ensures var t := Next(c, s, a);
            s.log <= t.log && s.written <= t.written && Latest(s.files) <= Latest(t.files)
  {
  }

  /** A number at or below a checkpoint is never handed out again, by any later recovery. */
  lemma BelowCheckpointForGood(c: Codec, s: State, acts: seq<Action>)
    ensures forall x :: x in Accepted(c, Exec(c, s, acts)) ==> x.sequence > Latest(s.files)
  {
    var t := Exec(c, s, acts);
    FilesAndLogGrow(c, s, acts);
    AcceptedExceed(c, Latest(t.files), Parse(t.log).frames);
  }

  /**
   After a restart that accepted nothing although a checkpoint exists, the next entry is logged and
   acknowledged, stays in the log, and is dropped by every later recovery, whatever comes in between.
   */
  lemma EntryUnderCheckpointIsLost(c: Codec, s: State, a: Action, acts: seq<Action>)
    requires Accepted(c, s) == [] && Latest(s.files) > 0
    requires a.Write? && WriteSucceeds(c, Stamp(c, 0, a.entry, a.now), a.io)
    ensures var e, t := Stamp(c, 0, a.entry, a.now), Exec(c, Next(c, Next(c, s, Restart), a), acts);
            && e in t.written && s.log + Frame(c.marshal(e).value) <= t.log
            && forall x :: x in Accepted(c, t) ==> x.sequence != e.sequence
  {
    var e, u := Stamp(c, 0, a.entry, a.now), Next(c, Next(c, s, Restart), a);
    FilesAndLogGrow(c, u, acts);
    BelowCheckpointForGood(c, u, acts);
    assert u.written[|s.written|] == e;
    assert u.written[|s.written|] == Exec(c, u, acts).written[|s.written|];
  }

  lemma RunOfThree(c: Codec, s: State, a: Action, b: Action, d: Action)
    ensures Exec(c, s, [a, b, d]) == Next(c, Next(c, Next(c, s, a), b), d)
    ensures Admissible(c, s, a) && Admissible(c, Next(c, s, a), b) && Admissible(c, Next(c, Next(c, s, a), b), d) ==>
              AdmissibleRun(c, s, [a, b, d])
  {
    var t := Next(c, s, a);
    var u := Next(c, t, b);
    assert [a, b, d][1..] == [b, d] && [b, d][1..] == [d] && [d][1..] == [];
    assert Exec(c, u, [d]) == Next(c, u, d);
    assert Exec(c, t, [b, d]) == Next(c, u, d);
    if Admissible(c, s, a) && Admissible(c, t, b) && Admissible(c, u, d) {
      assert AdmissibleRun(c, Next(c, u, d), []);
      assert AdmissibleRun(c, u, [d]);
      assert AdmissibleRun(c, t, [b, d]);
    }
  }

  /** One write and its checkpoint lead there from nothing. */
  lemma LossIsReachable(c: Codec, a: Action)
    requires a.Write? && WriteSucceeds(c, Stamp(c, 0, a.entry, a.now), a.io) && Loggable(c, Stamp(c, 0, a.entry, a.now))
    ensures AdmissibleRun(c, EMPTY, [a, BeginCheckpoint, EndCheckpoint(1)])
    ensures var s := Exec(c, EMPTY, [a, BeginCheckpoint, EndCheckpoint(1)]);
            Inv(c, s) && Latest(s.files) == 1 && Accepted(c, s) == [] && !Fresh(s)
  {
    var run := [a, BeginCheckpoint, EndCheckpoint(1)];
    RunOfThree(c, EMPTY, a, BeginCheckpoint, EndCheckpoint(1));
    RunKeepsInv(c, EMPTY, run);
    var s := Exec(c, EMPTY, run);
    assert s.files == [Some(1)] && s.sequence == 1 && Some(1) in s.files;
    AcceptedSurvive(c, s);
    NoSurvivors(c, s.written, 1);
  }

  // ---------------------------------------------------------------- when the hash sees the clock

  ghost predicate WholeRun(c: Codec, s: State, acts: seq<Action>)
    decreases acts
  {
    acts == [] || (WholeWrite(c, s, acts[0]) && WholeRun(c, Next(c, s, acts[0]), acts[1..]))
  }

  lemma {:induction false} WholeRunKeepsLog(c: Codec, s: State, acts: seq<Action>)
    requires AllLoggable(c, s.written) && s.log == Log(c, s.written) && WholeRun(c, s, acts)
    ensures var t := Exec(c, s, acts); AllLoggable(c, t.written) && t.log == Log(c, t.written)
    decreases acts
  {
    if acts != [] {
      var a := acts[0];
      if a.Write? {
        if WriteSucceeds(c, Stamp(c, s.sequence, a.entry, a.now), a.io) {
          WrittenState(c, s, a);
        } else {
          AppendNothing(s.log);
        }
      }
      WholeRunKeepsLog(c, Next(c, s, a), acts[1..]);
    }
  }

  /**
   If the hash sees the monotonic reading of every entry a run has logged, then recovery from wherever
   the run has got to replays nothing, counts every frame beyond the checkpoint corrupt, and leaves
   the number at 0.  Restarts may happen anywhere.
   */
  lemma SeenReadingsLoseEveryRun(c: Codec, acts: seq<Action>)
    requires WholeRun(c, EMPTY, acts) && ReadingsSeen(c, Exec(c, EMPTY, acts).written)
    ensures var s := Exec(c, EMPTY, acts);
            && Marshals(c, s.written)
            && ReplayOf(c, Latest(s.files), s.log)
               == Replay([], BytesBeyond(c, s.written, Latest(s.files)), |Beyond(s.written, Latest(s.files))|)
            && Next(c, s, Restart).sequence == 0
  {
    var s := Exec(c, EMPTY, acts);
    WholeRunKeepsLog(c, EMPTY, acts);
    SeenReadingsLoseTheLog(c, Latest(s.files), s.written);
  }

  lemma WrittenState(c: Codec, s: State, a: Action)
    requires AllLoggable(c, s.written) && s.log == Log(c, s.written) && a.Write?
    requires WriteSucceeds(c, Stamp(c, s.sequence, a.entry, a.now), a.io)
    requires Loggable(c, Stamp(c, s.sequence, a.entry, a.now))
    ensures var e, t := Stamp(c, s.sequence, a.entry, a.now), Next(c, s, a);
            && t.written == s.written + [e] && t.files == s.files && t.sequence == e.sequence && t.failed == s.failed
            && t.pending == s.pending && AllLoggable(c, t.written) && t.log == Log(c, t.written)
  {
    LogSnoc(c, s.written, Stamp(c, s.sequence, a.entry, a.now));
  }
}
