/**
 Exactly when a worker pool returns under every schedule, whatever its entries: the condition is on the
 orders in which that many workers can apply them.

 A run that applies them in a bad order need not get stuck, since nils may have been dropped.  But the
 producer could have run ahead first and filled the channel with nils.
 */
module PoolReturns {
  import opened Sequences
  import opened ReplayPool
  import opened PoolProgress
  import opened PoolSchedules

  // ---------------------------------------------------------------- a jammed channel

  /** The error channel is full and a worker waits to report. */
  ghost predicate Jammed<S>(j: Job<S>, p: Pool<S>) {
    |p.errors| >= j.channels.errorBuffer && exists w :: 0 <= w < |p.workers| && p.workers[w].Reporting?
  }

  lemma JammedStays<S>(j: Job<S>, p: Pool<S>, m: Move)
    requires Jammed(j, p) && Enabled(j, p, m)
    ensures Jammed(j, Step(j, p, m))
  {
    var w :| 0 <= w < |p.workers| && p.workers[w].Reporting?;
    assert Step(j, p, m).workers[w].Reporting?;
  }

  lemma {:induction false} JammedForGood<S>(j: Job<S>, p: Pool<S>, ms: seq<Move>, q: Pool<S>)
    requires Jammed(j, p) && Runs(j, p, ms, q)
    ensures Jammed(j, q)
    decreases ms
  {
    if ms != [] {
      JammedStays(j, p, ms[0]);
      JammedForGood(j, Step(j, p, ms[0]), ms[1..], q);
    }
  }

  // ---------------------------------------------------------------- any order within reach is taken

  /** The producer is between entries, and every worker is idle or has an entry in hand. */
  ghost predicate Poised<S>(j: Job<S>, p: Pool<S>) {
    && Traced(j, p) && p.producer.Selecting?
    && forall w :: 0 <= w < |p.workers| ==> p.workers[w].Idle? || p.workers[w].Applying?
  }

  lemma {:induction false} AllInFlight(ws: seq<Worker>)
    requires forall w :: 0 <= w < |ws| ==> ws[w].Applying?
    ensures |Gather(ws, InFlight)| == |ws|
  {
    if ws != [] {
      AllInFlight(ws[1..]);
    }
  }

  lemma IdleWorker(order: seq<nat>, ws: seq<Worker>, taken: nat) returns (w: nat)
    requires TakenOnce(order, ws, taken) && taken < |order| + |ws|
    requires forall w :: 0 <= w < |ws| ==> ws[w].Idle? || ws[w].Applying?
    ensures w < |ws| && ws[w].Idle?
  {
    if forall w :: 0 <= w < |ws| ==> ws[w].Applying? {
      AllInFlight(ws);
      TakenCount(order, ws, taken);
      assert false;
    }
    w :| 0 <= w < |ws| && !ws[w].Applying?;
  }

  lemma {:induction false} InSomeHand(ws: seq<Worker>, i: nat) returns (w: nat)
    requires i in Gather(ws, InFlight)
    ensures w < |ws| && ws[w] == Applying(i)
  {
    if i in InFlight(ws[0]) {
      w := 0;
    } else {
      w := InSomeHand(ws[1..], i);
      w := w + 1;
    }
  }

  lemma HolderOf(order: seq<nat>, ws: seq<Worker>, taken: nat, i: nat) returns (w: nat)
    requires TakenOnce(order, ws, taken) && i < taken && i !in order
    ensures w < |ws| && ws[w] == Applying(i)
  {
    assert Range(0, taken)[i] == i;
    assert i in multiset(Range(0, taken)) && i !in multiset(order);
    w := InSomeHand(ws, i);
  }

  /** There is an entry to take. */
  lemma Supply<S>(j: Job<S>, p: Pool<S>) returns (ms: seq<Move>, q: Pool<S>)
    requires Poised(j, p) && Taken(j, p) < j.count
    ensures Runs(j, p, ms, q) && Poised(j, q) && q.queue != []
    ensures q.order == p.order && q.workers == p.workers && Taken(j, q) == Taken(j, p)
  {
    if p.queue != [] {
      ms, q := [], p;
    } else {
      var s := Step(j, p, Select);
      q := Step(j, s, Send);
      StepTraced(j, p, Select);
      StepTraced(j, s, Send);
      RunsOne(j, s, Send);
      RunsCons(j, p, Select, [Send], q);
      ms := [Select] + [Send];
    }
  }

  lemma TakeNext<S>(j: Job<S>, p: Pool<S>) returns (ms: seq<Move>, q: Pool<S>)
    requires Poised(j, p) && Taken(j, p) < j.count && Taken(j, p) < |p.order| + |p.workers|
    ensures Runs(j, p, ms, q) && Poised(j, q)
    ensures q.order == p.order && |q.workers| == |p.workers| && Taken(j, q) == Taken(j, p) + 1
  {
    var ms0, s := Supply(j, p);
    var w := IdleWorker(s.order, s.workers, Taken(j, s));
    TakeFields(j, s, w);
    StepTraced(j, s, Take(w));
    q := Step(j, s, Take(w));
    RunsOne(j, s, Take(w));
    RunsConcat(j, p, ms0, s, [Take(w)], q);
    ms := ms0 + [Take(w)];
  }

  /** Entry `i` is near enough for some worker to have it in hand. */
  lemma TakeUpTo<S>(j: Job<S>, p: Pool<S>, i: nat) returns (ms: seq<Move>, q: Pool<S>)
    requires Poised(j, p) && i < j.count && i < |p.order| + |p.workers|
    ensures Runs(j, p, ms, q) && Poised(j, q) && i < Taken(j, q)
    ensures q.order == p.order && |q.workers| == |p.workers|
    decreases i - Taken(j, p)
  {
    if i < Taken(j, p) {
      ms, q := [], p;
    } else {
      var ms0, s := TakeNext(j, p);
      var ms1;
      ms1, q := TakeUpTo(j, s, i);
      RunsConcat(j, p, ms0, s, ms1, q);
      ms := ms0 + ms1;
    }
  }

  lemma ReportNext<S>(j: Job<S>, p: Pool<S>, w: nat)
    requires Traced(j, p) && Enabled(j, p, Report(w)) && p.producer.Selecting?
    requires forall v :: 0 <= v < |p.workers| && v != w ==> p.workers[v].Idle? || p.workers[v].Applying?
    ensures var q := Step(j, p, Report(w));
            Poised(j, q) && q.order == p.order && |q.workers| == |p.workers|
  {
    StepTraced(j, p, Report(w));
  }

  lemma AppliedNext<S>(j: Job<S>, p: Pool<S>, w: nat)
    requires Poised(j, p) && w < |p.workers| && p.workers[w].Applying?
    ensures var q := Step(j, p, Apply(w));
            && Traced(j, q) && q.producer.Selecting? && |q.workers| == |p.workers|
            && q.order == p.order + [p.workers[w].i] && (q.workers[w].Idle? || q.workers[w].Reporting?)
            && forall v :: 0 <= v < |q.workers| && v != w ==> q.workers[v].Idle? || q.workers[v].Applying?
  {
    StepTraced(j, p, Apply(w));
    ApplyFields(j, p, w, p.workers[w].i, j.apply(p.tiers, p.workers[w].i).1);
  }

  /** It is applied, and a failure is reported if there is room. */
  lemma ApplyNext<S>(j: Job<S>, p: Pool<S>, w: nat) returns (ms: seq<Move>, q: Pool<S>)
    requires Poised(j, p) && w < |p.workers| && p.workers[w].Applying?
    ensures Runs(j, p, ms, q) && Traced(j, q)
    ensures q.order == p.order + [p.workers[w].i] && |q.workers| == |p.workers|
    ensures Poised(j, q) || Jammed(j, q)
  {
    AppliedNext(j, p, w);
    RunsOne(j, p, Apply(w));
    ms, q := [Apply(w)], Step(j, p, Apply(w));
    if q.workers[w].Reporting? && |q.errors| < j.channels.errorBuffer {
      ReportNext(j, q, w);
      RunsOne(j, q, Report(w));
      RunsConcat(j, p, ms, q, [Report(w)], Step(j, q, Report(w)));
      ms, q := ms + [Report(w)], Step(j, q, Report(w));
    }
  }

  /** The workers can apply the entries in any such order, unless their reports jam the channel first. */
  lemma {:induction false} FollowOrder<S>(j: Job<S>, p: Pool<S>, order: seq<nat>) returns (ms: seq<Move>, q: Pool<S>)
    requires Poised(j, p) && p.order == [] && Picks(order, j.count) && WithinReach(order, |p.workers|)
    ensures Runs(j, p, ms, q) && Traced(j, q)
    ensures Jammed(j, q) || (Poised(j, q) && q.order == order && |q.workers| == |p.workers|)
  {
    if order == [] {
      ms, q := [], p;
    } else {
      var k := |order| - 1;
      PicksFront(order, j.count);
      ms, q := FollowOrder(j, p, order[..k]);
      if !Jammed(j, q) {
        var ms1, q1 := TakeUpTo(j, q, order[k]);
        RunsConcat(j, p, ms, q, ms1, q1);
        var w := HolderOf(q1.order, q1.workers, Taken(j, q1), order[k]);
        var ms2, q2 := ApplyNext(j, q1, w);
        RunsConcat(j, p, ms + ms1, q1, ms2, q2);
        ms, q := ms + ms1 + ms2, q2;
      }
    }
  }

  /** The nils that the producer can offer before any worker moves. */
  function EarlyNils<S>(j: Job<S>): nat {
    if !j.channels.offersNils then 0
    else if j.count < j.channels.errorBuffer then j.count else j.channels.errorBuffer
  }

  lemma RunAhead<S>(j: Job<S>, workers: nat) returns (ms: seq<Move>, q: Pool<S>)
    requires Runnable(j, workers)
    ensures Runs(j, Init(j, workers), ms, q) && Poised(j, q)
    ensures q.order == [] && |q.workers| == workers && Nils(q.errors) == EarlyNils(j)
  {
    if j.channels.offersNils {
      ms, q := ProducerAhead(j, workers, EarlyNils(j));
    } else {
      ms, q := [], Init(j, workers);
    }
    InitInv(j, workers);
    RunTraced(j, Init(j, workers), ms, q);
  }

  // ---------------------------------------------------------------- how far the producer runs ahead

  lemma {:induction false} QueueWithin<S>(j: Job<S>, p: Pool<S>, ms: seq<Move>, q: Pool<S>)
    requires |p.queue| <= j.channels.entryBuffer && Runs(j, p, ms, q)
    ensures |q.queue| <= j.channels.entryBuffer
    decreases ms
  {
    if ms != [] {
      QueueWithin(j, Step(j, p, ms[0]), ms[1..], q);
    }
  }

  lemma {:induction false} FillQueue<S>(j: Job<S>, workers: nat, n: nat) returns (ms: seq<Move>, q: Pool<S>)
    requires n <= j.count && n <= j.channels.entryBuffer
    ensures Runs(j, Init(j, workers), ms, q) && q.producer == Selecting(n) && |q.queue| == n
  {
    if n == 0 {
      ms, q := [], Init(j, workers);
    } else {
      var ms0, p := FillQueue(j, workers, n - 1);
      var s := Step(j, p, Select);
      q := Step(j, s, Send);
      RunsOne(j, s, Send);
      RunsCons(j, p, Select, [Send], q);
      RunsConcat(j, Init(j, workers), ms0, p, [Select] + [Send], q);
      ms := ms0 + ([Select] + [Send]);
    }
  }

  // ---------------------------------------------------------------- the exact condition

  lemma {:induction false} FailuresStay<S>(j: Job<S>, p: Pool<S>, ms: seq<Move>, q: Pool<S>)
    requires Runs(j, p, ms, q)
    ensures |q.failed| >= |p.failed|
    decreases ms
  {
    if ms != [] {
      FailuresStay(j, Step(j, p, ms[0]), ms[1..], q);
    }
  }

  /** Nobody gets home with a jammed channel, or with more nils and failures than it holds. */
  lemma CannotFinish<S>(j: Job<S>, p: Pool<S>, ms: seq<Move>, q: Pool<S>)
    requires Inv(j, p) && Runs(j, p, ms, q)
    requires Jammed(j, p) || Nils(p.errors) + |p.failed| > j.channels.errorBuffer
    ensures !q.producer.Finished?
  {
    RunKeepsInv(j, p, ms, q);
    if q.producer.Finished? {
      FinishedIsComplete(j, q);
      NilsStay(j, p, ms, q);
      FailuresStay(j, p, ms, q);
      ReportCount(q.errors);
      SameSize(Failures(q.errors), q.failed);
      if Jammed(j, p) {
        JammedForGood(j, p, ms, q);
      }
    }
  }

  /** The error channel is too small for some order within reach: some schedule gets stuck. */
  lemma DeadlockExists<S>(j: Job<S>, workers: nat, order: seq<nat>) returns (ms: seq<Move>, q: Pool<S>)
    requires Runnable(j, workers) && Picks(order, j.count) && WithinReach(order, workers)
    requires !RoomForErrors(j, |FailedOf(j, order)|)
    ensures Stuck(j, workers, ms, q)
  {
    var ms0, p0 := RunAhead(j, workers);
    var ms1, p1 := FollowOrder(j, p0, order);
    NilsStay(j, p0, ms1, p1);
    RunsConcat(j, Init(j, workers), ms0, p0, ms1, p1);
    var ms2;
    ms2, q := RunToTheEnd(j, p1);
    RunsConcat(j, Init(j, workers), ms0 + ms1, p1, ms2, q);
    CannotFinish(j, p1, ms2, q);
    ms := ms0 + ms1 + ms2;
  }

  /**
   A pool returns under every schedule exactly when the error channel has room for the failures of every
   order in which no entry comes as many places ahead of its turn as there are workers.
   */
  lemma ReturnsIff<S>(j: Job<S>, workers: nat)
    requires Runnable(j, workers)
    ensures OrdersFit(j, workers) <==> forall ms, q :: !Stuck(j, workers, ms, q)
  {
    if OrdersFit(j, workers) {
      forall ms, q ensures !Stuck(j, workers, ms, q) {
        if Stuck(j, workers, ms, q) {
          InitInv(j, workers);
          RunTraced(j, Init(j, workers), ms, q);
          OrdersFitNow(j, q);
          Progress(j, q);
        }
      }
    } else {
      var order :| Picks(order, j.count) && WithinReach(order, workers) && !RoomForErrors(j, |FailedOf(j, order)|);
      var ms, q := DeadlockExists(j, workers, order);
    }
  }

  /** Where outcomes are fixed, exactly when no entry fails or the channel has room for all. */
  lemma CompletesIff<S>(j: Job<S>, workers: nat, fails: nat -> bool)
    requires Runnable(j, workers) && OutcomesFixed(j, fails)
    ensures RoomForErrors(j, FailureCount(j, fails)) <==> forall ms, q :: !Stuck(j, workers, ms, q)
  {
    FixedErrorsFitIff(j, workers, fails);
    ReturnsIff(j, workers);
  }

  // ---------------------------------------------------------------- one worker

  lemma {:induction false} FailedPrefix<S>(j: Job<S>, k: nat, n: nat)
    requires k <= n
    ensures |FailedOf(j, Range(0, k))| <= |FailedOf(j, Range(0, n))|
    decreases n
  {
    if k < n {
      FailedPrefix(j, k, n - 1);
      SnocRange(0, n - 1);
      SnocFailed(j, Range(0, n - 1), n - 1);
    }
  }

  /** With one worker only the failures of the log's own order count. */
  lemma OneWorkerFitsIff<S>(j: Job<S>)
    ensures OrdersFit(j, 1) <==> RoomForErrors(j, |FailedOf(j, Range(0, j.count))|)
  {
    forall order | Picks(order, j.count) && WithinReach(order, 1)
      ensures |FailedOf(j, order)| <= |FailedOf(j, Range(0, j.count))|
    {
      WithinOne(order, j.count);
      FailedPrefix(j, |order|, j.count);
    }
  }

  /** A single worker returns under every schedule exactly when the failures of the log's order fit. */
  lemma OneWorkerReturnsIff<S>(j: Job<S>)
    requires Runnable(j, 1)
    ensures RoomForErrors(j, |FailedOf(j, Range(0, j.count))|) <==> forall ms, q :: !Stuck(j, 1, ms, q)
  {
    OneWorkerFitsIff(j);
    ReturnsIff(j, 1);
  }
}
