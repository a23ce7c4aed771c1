/**
 A worker pool moves and ends: every move lowers a measure, some move is possible while failures find
 room, and a pool that has finished has done everything.
 */
module PoolProgress {
  import opened ReplayPool

  // ---------------------------------------------------------------- termination

  function Price(w: Worker): nat {
    match w
    case Idle => 1
    case Applying(_) => 3
    case Reporting(_) => 2
    case Exited => 0
  }

  function Cost(ws: seq<Worker>): nat {
    if ws == [] then 0 else Price(ws[0]) + Cost(ws[1..])
  }

  lemma {:induction false} CostUpdate(ws: seq<Worker>, w: nat, x: Worker)
    requires w < |ws|
    ensures Cost(ws[w := x]) + Price(ws[w]) == Cost(ws) + Price(x)
  {
    if w == 0 {
      assert ws[w := x][1..] == ws[1..];
    } else {
      CostUpdate(ws[1..], w - 1, x);
      assert ws[w := x][1..] == ws[1..][w - 1 := x];
    }
  }

  function Ahead<S>(j: Job<S>, p: Pool<S>): nat
    requires Sent(j, p) <= j.count
  {
    match p.producer
    case Selecting(i) => 2 * (j.count - i) + 2
    case Sending(i) => 2 * (j.count - i) + 1
    case Waiting => 1
    case Finished => 0
  }

  function Measure<S>(j: Job<S>, p: Pool<S>): nat
    requires |p.queue| <= Sent(j, p) <= j.count
  {
    Ahead(j, p) + 3 * (j.count - Taken(j, p)) + Cost(p.workers)
  }

  lemma StepDecreases<S>(j: Job<S>, p: Pool<S>, m: Move)
    requires Inv(j, p) && Enabled(j, p, m)
    ensures Inv(j, Step(j, p, m)) && Measure(j, Step(j, p, m)) < Measure(j, p)
  {
    StepKeepsInv(j, p, m);
    if m.Select? || m.Send? || m.Close? || m.Finish? {
      ProducerDecreases(j, p, m);
    } else {
      WorkerDecreases(j, p, m, m.w);
    }
  }

  lemma ProducerDecreases<S>(j: Job<S>, p: Pool<S>, m: Move)
    requires Control(j, p) && Enabled(j, p, m) && Control(j, Step(j, p, m))
    requires m.Select? || m.Send? || m.Close? || m.Finish?
    ensures Measure(j, Step(j, p, m)) < Measure(j, p)
  {
    var q := Step(j, p, m);
    assert q.workers == p.workers && Taken(j, q) == Taken(j, p);
  }

  lemma WorkerDecreases<S>(j: Job<S>, p: Pool<S>, m: Move, w: nat)
    requires Control(j, p) && Enabled(j, p, m) && Control(j, Step(j, p, m))
    requires m in {Take(w), Apply(w), Report(w), Exit(w)}
    ensures Measure(j, Step(j, p, m)) < Measure(j, p)
  {
    var q := Step(j, p, m);
    var x := q.workers[w];
    assert q.workers == p.workers[w := x];
    CostUpdate(p.workers, w, x);
    assert Ahead(j, q) == Ahead(j, p);
    assert Taken(j, q) == if m.Take? then Taken(j, p) + 1 else Taken(j, p);
  }

  /** No schedule runs longer than the measure it starts with. */
  lemma {:induction false} RunsAreBounded<S>(j: Job<S>, p: Pool<S>, ms: seq<Move>, q: Pool<S>)
    requires Inv(j, p) && Runs(j, p, ms, q)
    ensures Inv(j, q) && |ms| + Measure(j, q) <= Measure(j, p)
    decreases ms
  {
    if ms != [] {
      StepDecreases(j, p, ms[0]);
      RunsAreBounded(j, Step(j, p, ms[0]), ms[1..], q);
    }
  }

  // ---------------------------------------------------------------- progress

  ghost predicate CanMove<S>(j: Job<S>, p: Pool<S>) {
    exists m :: Enabled(j, p, m)
  }

  /** No failure so far, or room in the error channel for every nil offered and every failure. */
  predicate RoomForErrors<S>(j: Job<S>, failures: nat) {
    failures == 0 || (if j.channels.offersNils then j.count else 0) + failures <= j.channels.errorBuffer
  }

  lemma RoomToReport<S>(j: Job<S>, p: Pool<S>, w: nat)
    requires Inv(j, p) && w < |p.workers| && p.workers[w].Reporting?
    requires RoomForErrors(j, |p.failed|)
    ensures Enabled(j, p, Report(w))
  {
    GatherHas(p.workers, Unreported, w);
    ReportCount(p.errors);
    var i := p.workers[w].i;
    assert multiset(p.failed) == multiset(Failures(p.errors)) + Gather(p.workers, Unreported);
    assert |multiset(p.failed)| == |multiset(Failures(p.errors))| + |Gather(p.workers, Unreported)|;
    assert |Gather(p.workers, Unreported)| >= |multiset{i}|;
    assert |p.failed| == |multiset(p.failed)|;
  }

  /** Some step is enabled until the end. */
  lemma Progress<S>(j: Job<S>, p: Pool<S>)
    requires Inv(j, p) && !p.producer.Finished? && RoomForErrors(j, |p.failed|)
    ensures CanMove(j, p)
  {
    if w: nat :| w < |p.workers| && p.workers[w].Reporting? {
      RoomToReport(j, p, w);
    } else if w: nat :| w < |p.workers| && p.workers[w].Applying? {
      assert Enabled(j, p, Apply(w));
    } else if p.producer.Selecting? {
      assert Enabled(j, p, Select) || Enabled(j, p, Close);
    } else if p.producer.Sending? {
      assert Enabled(j, p, Send) || Enabled(j, p, Take(0)) by { assert p.workers[0] in p.workers; }
    } else if w: nat :| w < |p.workers| && p.workers[w].Idle? {
      assert Enabled(j, p, Take(w)) || Enabled(j, p, Exit(w));
    } else {
      assert Enabled(j, p, Finish);
    }
  }

  /** What a finished pool has done. */
  ghost predicate Complete<S>(j: Job<S>, q: Pool<S>) {
    && q.producer.Finished?
    && multiset(q.order) == multiset(Range(0, j.count))
    && q.replayed == j.count
    && multiset(Failures(q.errors)) == multiset(q.failed)
    && q.tiers == Fold(j, q.order)
  }

  lemma NoneInFlight(order: seq<nat>, ws: seq<Worker>, taken: nat)
    requires TakenOnce(order, ws, taken) && Gather(ws, InFlight) == multiset{}
    ensures multiset(order) == multiset(Range(0, taken))
  {
  }

  lemma NoneUnreported(failed: seq<nat>, errors: seq<Report>, ws: seq<Worker>)
    requires FailuresKept(failed, errors, ws) && Gather(ws, Unreported) == multiset{}
    ensures multiset(Failures(errors)) == multiset(failed)
  {
  }

  lemma FinishedIsComplete<S>(j: Job<S>, q: Pool<S>)
    requires Inv(j, q) && q.producer.Finished?
    ensures Complete(j, q)
  {
    assert q.workers[0] in q.workers;
    GatherNone(q.workers, InFlight);
    GatherNone(q.workers, Unreported);
    NoneInFlight(q.order, q.workers, Taken(j, q));
    NoneUnreported(q.failed, q.errors, q.workers);
  }

  /** A schedule that finishes has done everything. */
  lemma FinishedRun<S>(j: Job<S>, workers: nat, ms: seq<Move>, q: Pool<S>)
    requires workers > 0 && j.channels.entryBuffer > 0 && Runs(j, Init(j, workers), ms, q) && q.producer.Finished?
    ensures Complete(j, q)
  {
    InitInv(j, workers);
    RunKeepsInv(j, Init(j, workers), ms, q);
    FinishedIsComplete(j, q);
  }

  /**
   A schedule that cannot be extended and saw no failure, or few enough, has finished: every entry
   applied exactly once, all of them counted, and every failure reported.
   */
  lemma RecoveryCompletes<S>(j: Job<S>, workers: nat, ms: seq<Move>, q: Pool<S>)
    requires workers > 0 && j.channels.entryBuffer > 0 && Runs(j, Init(j, workers), ms, q)
    requires RoomForErrors(j, |q.failed|)
    ensures CanMove(j, q) || Complete(j, q)
    ensures |ms| <= Measure(j, Init(j, workers))
  {
    InitInv(j, workers);
    RunsAreBounded(j, Init(j, workers), ms, q);
    if q.producer.Finished? {
      FinishedIsComplete(j, q);
    } else {
      Progress(j, q);
    }
  }
}
