/**
 The recovery manager over whole runs of its process (pkg/replay/recovery.go:76-306): the objects that live
 one after another over the same files do, action by action, what WalRuns says, so its results hold of them.
 */
module WalProcess {
  import opened Bytes
  import opened WalFormat
  import opened ReplayPool
  import opened PoolSchedules
  import opened WalManager
  import opened WalRuns

  /** What a recovery is given besides the files: somewhere to start, an apply function and a scheduler. */
  datatype Replaying<!S> = Replaying(start: S, apply: (S, WalEntry) -> (S, bool), schedule: Job<S> -> ((nat, Pool<S>) -> Move))

  /** No entry can fail, and whatever is replayed, some possible move is made. */
  ghost predicate Safe<S(!new)>(r: Replaying<S>) {
    && (forall t, e :: !r.apply(t, e).1)
    && forall j :: Obliging(j, r.schedule(j))
  }

  /** The manager is where the run is. */
  ghost predicate Shows(m: RecoveryManager, c: Codec, s: State)
    reads m
  {
    && m.codec == c && m.keepsCheckpoints && !m.closed && m.workers > 0 && m.interval > 0
    && m.sequence == s.sequence && m.wal == s.log && m.checkpointFiles == s.files
  }

  /** A new process over the files of the old one, and its recovery. */
  method Restarted<S(!new)>(c: Codec, workers: int, interval: int, log: seq<Byte>, files: seq<Option<nat>>, r: Replaying<S>, ghost s: State)
    returns (m: RecoveryManager)
    requires s.log == log && s.files == files && Safe(r)
    ensures fresh(m) && Shows(m, c, Next(c, s, Restart))
  {
    m := new RecoveryManager(c, workers, interval, true, log, files);
    var j := EntryJob(m.Accepted(), r.start, r.apply);
    SafeEntriesFit(j, m.workers);
    var result, tiers, order := m.Recover(r.start, r.apply, r.schedule(j));
  }

  /** One action of a run, on the object. */
  method Act<S(!new)>(c: Codec, m: RecoveryManager, a: Action, pending: set<nat>, workers: int, interval: int, r: Replaying<S>, ghost s: State)
    returns (m': RecoveryManager, pending': set<nat>)
    requires Shows(m, c, s) && pending == s.pending && Safe(r)
    modifies m
    ensures m' == m || fresh(m')
    ensures Shows(m', c, Next(c, s, a)) && pending' == Next(c, s, a).pending
  {
    m', pending' := m, pending;
    match a {
      case Write(entry, now, io) =>
        var ok, stamped, due := m.Write(entry, now, io);
      case BeginCheckpoint =>
        var n := m.BeginCheckpoint();
        pending' := pending + {n.value};
      case EndCheckpoint(n) =>
        if n in pending {
          m.EndCheckpoint(n);
          pending' := pending - {n};
        }
      case Restart =>
        m' := Restarted(c, workers, interval, m.wal, m.checkpointFiles, r, s);
        pending' := {};
    }
  }

  lemma ExecSnoc(c: Codec, s: State, acts: seq<Action>, i: nat)
    requires i < |acts|
    ensures Exec(c, s, acts[..i + 1]) == Next(c, Exec(c, s, acts[..i]), acts[i])
  {
    assert acts[..i + 1] == acts[..i] + [acts[i]];
    ExecConcat(c, s, acts[..i], [acts[i]]);
    assert [acts[i]][1..] == [];
  }

  /** Any run of the process, from an empty directory: the manager ends where WalRuns does. */
  method Process<S(!new)>(c: Codec, workers: int, interval: int, acts: seq<Action>, r: Replaying<S>) returns (m: RecoveryManager)
    requires Safe(r)
    ensures fresh(m) && Shows(m, c, Exec(c, WalRuns.EMPTY, acts))
  {
    m := new RecoveryManager(c, workers, interval, true, [], []);
    var pending: set<nat> := {};
    for i := 0 to |acts|
      invariant fresh(m) && Shows(m, c, Exec(c, WalRuns.EMPTY, acts[..i]))
      invariant pending == Exec(c, WalRuns.EMPTY, acts[..i]).pending
    {
      ExecSnoc(c, WalRuns.EMPTY, acts, i);
      m, pending := Act(c, m, acts[i], pending, workers, interval, r, Exec(c, WalRuns.EMPTY, acts[..i]));
    }
    assert acts[..|acts|] == acts;
  }
}
