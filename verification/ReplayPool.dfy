/**
 A worker pool as a step relation: one producer, any number of workers, and two bounded channels,
 under every schedule.  `Recover` (pkg/replay/recovery.go:249-292) and `preWarmL0`
 (pkg/tieredcache/tieredcache.go:225-311) each run one.

 Nobody reads the error channel until all workers have exited.  In `Recover` the producer also offers
 it a nil before every entry; those nils use up the room that failing workers need.
 */
module ReplayPool {
  import opened Sequences

  /** The channels: their capacities, and whether the producer offers nils to the error channel. */
  datatype Channels = Channels(entryBuffer: nat, errorBuffer: nat, offersNils: bool)

  /** The entries by index, what they start from, and the apply function: new tiers, and whether it failed. */
  datatype Job<!S> = Job(count: nat, start: S, apply: (S, nat) -> (S, bool), channels: Channels)

  datatype Producer = Selecting(i: nat) | Sending(i: nat) | Waiting | Finished

  datatype Worker = Idle | Applying(i: nat) | Reporting(i: nat) | Exited

  datatype Report = Nil | Failure(i: nat)

  /** `order` and `failed` record the applications so far and which of them returned an error. */
  datatype Pool<S> = Pool(
    producer: Producer,
    queue: seq<nat>,
    workers: seq<Worker>,
    errors: seq<Report>,
    replayed: nat,
    order: seq<nat>,
    failed: seq<nat>,
    tiers: S)

  datatype Move = Select | Send | Close | Take(w: nat) | Apply(w: nat) | Report(w: nat) | Exit(w: nat) | Finish

  /** At least one worker and a buffered entry channel; nils alone cannot outrun the entry channel. */
  predicate Runnable<S>(j: Job<S>, workers: nat) {
    && workers > 0 && j.channels.entryBuffer > 0
    && (j.channels.offersNils ==> j.channels.errorBuffer <= j.channels.entryBuffer)
  }

  function Init<S>(j: Job<S>, workers: nat): Pool<S> {
    Pool(Selecting(0), [], seq(workers, _ => Idle), [], 0, [], [], j.start)
  }

  predicate Closed<S>(p: Pool<S>) {
    p.producer.Waiting? || p.producer.Finished?
  }

  predicate Enabled<S>(j: Job<S>, p: Pool<S>, m: Move) {
    match m
    case Select => p.producer.Selecting? && p.producer.i < j.count
    case Send => p.producer.Sending? && |p.queue| < j.channels.entryBuffer
    case Close => p.producer == Selecting(j.count)
    case Take(w) => w < |p.workers| && p.workers[w].Idle? && p.queue != []
    case Apply(w) => w < |p.workers| && p.workers[w].Applying?
    case Report(w) => w < |p.workers| && p.workers[w].Reporting? && |p.errors| < j.channels.errorBuffer
    case Exit(w) => w < |p.workers| && p.workers[w].Idle? && Closed(p) && p.queue == []
    case Finish => p.producer.Waiting? && forall w :: 0 <= w < |p.workers| ==> p.workers[w].Exited?
  }

  function Step<S>(j: Job<S>, p: Pool<S>, m: Move): Pool<S>
    requires Enabled(j, p, m)
  {
    match m
    case Select =>
      p.(producer := Sending(p.producer.i),
         errors := if j.channels.offersNils && |p.errors| < j.channels.errorBuffer then p.errors + [Nil] else p.errors)
    case Send =>
      p.(producer := Selecting(p.producer.i + 1), queue := p.queue + [p.producer.i], replayed := p.replayed + 1)
    case Close => p.(producer := Waiting)
    case Take(w) => p.(workers := p.workers[w := Applying(p.queue[0])], queue := p.queue[1..])
    case Apply(w) =>
      var i := p.workers[w].i;
      var r := j.apply(p.tiers, i);
      p.(tiers := r.0,
         order := p.order + [i],
         workers := p.workers[w := if r.1 then Reporting(i) else Idle],
         failed := if r.1 then p.failed + [i] else p.failed)
    case Report(w) =>
      p.(workers := p.workers[w := Idle], errors := p.errors + [Failure(p.workers[w].i)])
    case Exit(w) => p.(workers := p.workers[w := Exited])
    case Finish => p.(producer := Finished)
  }

  ghost predicate Runs<S>(j: Job<S>, p: Pool<S>, ms: seq<Move>, q: Pool<S>)
    decreases ms
  {
    if ms == [] then p == q
    else Enabled(j, p, ms[0]) && Runs(j, Step(j, p, ms[0]), ms[1..], q)
  }

  // ---------------------------------------------------------------- what a state holds

  function Range(lo: nat, hi: nat): (r: seq<nat>)
    requires lo <= hi
    ensures |r| == hi - lo && forall k :: 0 <= k < |r| ==> r[k] == lo + k
  {
    seq(hi - lo, k requires 0 <= k < hi - lo => lo + k)
  }

  function InFlight(w: Worker): multiset<nat> {
    if w.Applying? then multiset{w.i} else multiset{}
  }

  function Unreported(w: Worker): multiset<nat> {
    if w.Reporting? then multiset{w.i} else multiset{}
  }

  function Gather(ws: seq<Worker>, f: Worker -> multiset<nat>): multiset<nat> {
    if ws == [] then multiset{} else f(ws[0]) + Gather(ws[1..], f)
  }

  /** The non-nil errors: what `Recover` puts in its result. */
  function Failures(rs: seq<Report>): seq<nat> {
    if rs == [] then []
    else Failures(rs[..|rs| - 1]) + (if rs[|rs| - 1].Failure? then [rs[|rs| - 1].i] else [])
  }

  function Nils(rs: seq<Report>): nat {
    if rs == [] then 0
    else Nils(rs[..|rs| - 1]) + (if rs[|rs| - 1].Nil? then 1 else 0)
  }

  /** In-order application of the listed entries. */
  function Fold<S>(j: Job<S>, order: seq<nat>): S {
    if order == [] then j.start else j.apply(Fold(j, order[..|order| - 1]), order[|order| - 1]).0
  }

  function Sent<S>(j: Job<S>, p: Pool<S>): nat {
    if p.producer.Selecting? || p.producer.Sending? then p.producer.i else j.count
  }

  function Selected<S>(j: Job<S>, p: Pool<S>): nat {
    if p.producer.Selecting? then p.producer.i else if p.producer.Sending? then p.producer.i + 1 else j.count
  }

  function Taken<S>(j: Job<S>, p: Pool<S>): nat
    requires |p.queue| <= Sent(j, p)
  {
    Sent(j, p) - |p.queue|
  }

  /** Where the producer, the queue and the workers stand relative to each other. */
  ghost predicate Control<S>(j: Job<S>, p: Pool<S>) {
    && |p.workers| > 0 && j.channels.entryBuffer > 0
    && Sent(j, p) <= Selected(j, p) <= j.count
    && |p.queue| <= Sent(j, p)
    && (forall k :: 0 <= k < |p.queue| ==> p.queue[k] == Taken(j, p) + k)
    && p.replayed == Sent(j, p)
    && |p.errors| <= j.channels.errorBuffer
    && Nils(p.errors) <= (if j.channels.offersNils then Selected(j, p) else 0)
    && (forall w :: 0 <= w < |p.workers| && p.workers[w].Exited? ==> Closed(p) && p.queue == [])
    && (p.producer.Finished? ==> forall w :: 0 <= w < |p.workers| ==> p.workers[w].Exited?)
  }

  /** Every taken entry is applied or in flight; every failure is reported or waiting to be. */
  ghost predicate Accounts<S>(j: Job<S>, p: Pool<S>) {
    && TakenAccounted(j, p)
    && FailuresKept(p.failed, p.errors, p.workers)
    && p.tiers == Fold(j, p.order)
  }

  ghost predicate TakenAccounted<S>(j: Job<S>, p: Pool<S>) {
    |p.queue| <= Sent(j, p) && TakenOnce(p.order, p.workers, Taken(j, p))
  }

  ghost predicate TakenOnce(order: seq<nat>, ws: seq<Worker>, taken: nat) {
    forall x: nat :: multiset(order)[x] + Gather(ws, InFlight)[x] == multiset(Range(0, taken))[x]
  }

  ghost predicate FailuresKept(failed: seq<nat>, errors: seq<Report>, ws: seq<Worker>) {
    forall x: nat :: multiset(failed)[x] == multiset(Failures(errors))[x] + Gather(ws, Unreported)[x]
  }

  ghost predicate Inv<S>(j: Job<S>, p: Pool<S>) {
    Control(j, p) && Accounts(j, p)
  }

  // ---------------------------------------------------------------- counting lemmas

  lemma {:induction false} GatherUpdate(ws: seq<Worker>, f: Worker -> multiset<nat>, w: nat, x: Worker)
    requires w < |ws|
    ensures Gather(ws[w := x], f) + f(ws[w]) == Gather(ws, f) + f(x)
  {
    var old', new' := f(ws[w]), f(x);
    if w == 0 {
      assert ws[w := x][1..] == ws[1..];
    } else {
      GatherUpdate(ws[1..], f, w - 1, x);
      assert ws[w := x][1..] == ws[1..][w - 1 := x];
      assert ws[1..][w - 1] == ws[w];
      SwapRest(f(ws[0]), Gather(ws[1..][w - 1 := x], f), old', Gather(ws[1..], f), new');
    }
  }

  lemma SwapRest(head: multiset<nat>, a: multiset<nat>, b: multiset<nat>, c: multiset<nat>, d: multiset<nat>)
    requires a + b == c + d
    ensures head + a + b == head + c + d
  {
    assert head + a + b == head + (a + b);
    assert head + c + d == head + (c + d);
  }

  lemma {:induction false} GatherHas(ws: seq<Worker>, f: Worker -> multiset<nat>, w: nat)
    requires w < |ws|
    ensures f(ws[w]) <= Gather(ws, f)
  {
    if w > 0 {
      GatherHas(ws[1..], f, w - 1);
    }
  }

  lemma {:induction false} GatherNone(ws: seq<Worker>, f: Worker -> multiset<nat>)
    requires forall x :: x in ws ==> f(x) == multiset{}
    ensures Gather(ws, f) == multiset{}
  {
    if ws != [] {
      GatherNone(ws[1..], f);
    }
  }

  lemma {:induction false} GatherSize(ws: seq<Worker>, f: Worker -> multiset<nat>)
    requires forall x :: x in ws ==> |f(x)| <= 1
    ensures |Gather(ws, f)| <= |ws|
  {
    if ws != [] {
      GatherSize(ws[1..], f);
    }
  }

  lemma SnocReport(rs: seq<Report>, r: Report)
    ensures Failures(rs + [r]) == Failures(rs) + if r.Failure? then [r.i] else []
    ensures Nils(rs + [r]) == Nils(rs) + if r.Nil? then 1 else 0
  {
    assert (rs + [r])[..|rs|] == rs;
  }

  lemma {:induction false} ReportCount(rs: seq<Report>)
    ensures |rs| == Nils(rs) + |Failures(rs)|
  {
    if rs != [] {
      ReportCount(rs[..|rs| - 1]);
    }
  }

  lemma SnocFold<S>(j: Job<S>, order: seq<nat>, i: nat)
    ensures Fold(j, order + [i]) == j.apply(Fold(j, order), i).0
  {
    assert (order + [i])[..|order|] == order;
  }

  lemma SnocRange(lo: nat, hi: nat)
    requires lo <= hi
    ensures Range(lo, hi + 1) == Range(lo, hi) + [hi]
  {
  }

  lemma TailRange(lo: nat, hi: nat)
    requires lo < hi
    ensures Range(lo, hi)[0] == lo && Range(lo, hi)[1..] == Range(lo + 1, hi)
  {
  }

  // ---------------------------------------------------------------- the invariant

  lemma InitInv<S>(j: Job<S>, workers: nat)
    requires workers > 0 && j.channels.entryBuffer > 0
    ensures Inv(j, Init(j, workers))
  {
    GatherNone(Init(j, workers).workers, InFlight);
    GatherNone(Init(j, workers).workers, Unreported);
  }

  lemma StepKeepsControl<S>(j: Job<S>, p: Pool<S>, m: Move)
    requires Control(j, p) && Enabled(j, p, m)
    ensures Control(j, Step(j, p, m))
  {
    if m.Select? || m.Send? || m.Close? || m.Finish? {
      ProducerKeepsControl(j, p, m);
    } else {
      WorkerKeepsControl(j, p, m);
    }
  }

  lemma ProducerKeepsControl<S>(j: Job<S>, p: Pool<S>, m: Move)
    requires Control(j, p) && Enabled(j, p, m)
    requires m.Select? || m.Send? || m.Close? || m.Finish?
    ensures Control(j, Step(j, p, m))
  {
    match m
    case Select => SnocReport(p.errors, Nil);
    case Send => SnocRange(Taken(j, p), Sent(j, p));
    case _ =>
  }

  lemma WorkerKeepsControl<S>(j: Job<S>, p: Pool<S>, m: Move)
    requires Control(j, p) && Enabled(j, p, m)
    requires m.Take? || m.Apply? || m.Report? || m.Exit?
    ensures Control(j, Step(j, p, m))
  {
    if m.Take? {
      TakeKeepsControl(j, p, m.w);
    } else if m.Report? {
      SnocReport(p.errors, Failure(p.workers[m.w].i));
    }
  }

  lemma TakeKeepsControl<S>(j: Job<S>, p: Pool<S>, w: nat)
    requires Control(j, p) && Enabled(j, p, Take(w))
    ensures Control(j, Step(j, p, Take(w)))
  {
    TailRange(Taken(j, p), Sent(j, p));
  }

  lemma GatherAt(ws: seq<Worker>, f: Worker -> multiset<nat>, w: nat, x: Worker, n: nat)
    requires w < |ws|
    ensures Gather(ws[w := x], f)[n] + f(ws[w])[n] == Gather(ws, f)[n] + f(x)[n]
  {
    GatherUpdate(ws, f, w, x);
    var a, b, c, d := Gather(ws[w := x], f), f(ws[w]), Gather(ws, f), f(x);
    assert (a + b)[n] == (c + d)[n];
  }

  /** A worker takes entry `t` off the queue. */
  lemma TakeAccounts(order: seq<nat>, ws: seq<Worker>, w: nat, t: nat)
    requires w < |ws| && ws[w].Idle? && TakenOnce(order, ws, t)
    ensures TakenOnce(order, ws[w := Applying(t)], t + 1)
  {
    SnocRange(0, t);
    forall n: nat ensures multiset(order)[n] + Gather(ws[w := Applying(t)], InFlight)[n] == multiset(Range(0, t + 1))[n] {
      GatherAt(ws, InFlight, w, Applying(t), n);
    }
  }

  /** A worker turns its entry in flight into an applied one. */
  lemma ApplyAccounts(order: seq<nat>, ws: seq<Worker>, w: nat, x: Worker, t: nat)
    requires w < |ws| && ws[w].Applying? && !x.Applying? && TakenOnce(order, ws, t)
    ensures TakenOnce(order + [ws[w].i], ws[w := x], t)
  {
    var i := ws[w].i;
    forall n: nat ensures multiset(order + [i])[n] + Gather(ws[w := x], InFlight)[n] == multiset(Range(0, t))[n] {
      GatherAt(ws, InFlight, w, x, n);
    }
  }

  lemma FailAccounts(failed: seq<nat>, errors: seq<Report>, ws: seq<Worker>, w: nat, i: nat)
    requires w < |ws| && ws[w].Applying? && FailuresKept(failed, errors, ws)
    ensures FailuresKept(failed + [i], errors, ws[w := Reporting(i)])
  {
    forall n: nat ensures multiset(failed + [i])[n] == multiset(Failures(errors))[n] + Gather(ws[w := Reporting(i)], Unreported)[n] {
      GatherAt(ws, Unreported, w, Reporting(i), n);
    }
  }

  lemma ReportAccounts(failed: seq<nat>, errors: seq<Report>, ws: seq<Worker>, w: nat)
    requires w < |ws| && ws[w].Reporting? && FailuresKept(failed, errors, ws)
    ensures FailuresKept(failed, errors + [Failure(ws[w].i)], ws[w := Idle])
  {
    var i := ws[w].i;
    SnocReport(errors, Failure(i));
    forall n: nat ensures multiset(failed)[n] == multiset(Failures(errors + [Failure(i)]))[n] + Gather(ws[w := Idle], Unreported)[n] {
      GatherAt(ws, Unreported, w, Idle, n);
    }
  }

  /** A change of a worker that a sum does not see. */
  lemma GatherSame(ws: seq<Worker>, f: Worker -> multiset<nat>, w: nat, x: Worker)
    requires w < |ws| && f(ws[w]) == f(x) == multiset{}
    ensures Gather(ws[w := x], f) == Gather(ws, f)
  {
    GatherUpdate(ws, f, w, x);
    assert Gather(ws[w := x], f) + multiset{} == Gather(ws[w := x], f);
    assert Gather(ws, f) + multiset{} == Gather(ws, f);
  }

  lemma ApplyKeepsTaken(order: seq<nat>, ws: seq<Worker>, w: nat, fails: bool, t: nat)
    requires w < |ws| && ws[w].Applying? && TakenOnce(order, ws, t)
    ensures TakenOnce(order + [ws[w].i], ws[w := if fails then Reporting(ws[w].i) else Idle], t)
  {
    ApplyAccounts(order, ws, w, if fails then Reporting(ws[w].i) else Idle, t);
  }

  lemma ApplyKeepsFailures(failed: seq<nat>, errors: seq<Report>, ws: seq<Worker>, w: nat, fails: bool)
    requires w < |ws| && ws[w].Applying? && FailuresKept(failed, errors, ws)
    ensures FailuresKept(if fails then failed + [ws[w].i] else failed, errors, ws[w := if fails then Reporting(ws[w].i) else Idle])
  {
    if fails {
      FailAccounts(failed, errors, ws, w, ws[w].i);
    } else {
      GatherSame(ws, Unreported, w, Idle);
    }
  }

  /** A worker's move, field by field: only the worker changes, unless said otherwise. */
  lemma TakeFields<S>(j: Job<S>, p: Pool<S>, w: nat)
    requires Control(j, p) && Enabled(j, p, Take(w))
    ensures var q := Step(j, p, Take(w));
            && q.workers == p.workers[w := Applying(Taken(j, p))]
            && |q.queue| <= Sent(j, q) && Taken(j, q) == Taken(j, p) + 1
            && q.order == p.order && q.failed == p.failed && q.errors == p.errors && q.tiers == p.tiers
  {
    TailRange(Taken(j, p), Sent(j, p));
  }

  lemma ApplyFields<S>(j: Job<S>, p: Pool<S>, w: nat, i: nat, fails: bool)
    requires Enabled(j, p, Apply(w)) && i == p.workers[w].i && fails == j.apply(p.tiers, i).1
    ensures var q := Step(j, p, Apply(w));
            && q.order == p.order + [i]
            && q.workers == p.workers[w := if fails then Reporting(i) else Idle]
            && q.failed == (if fails then p.failed + [i] else p.failed)
            && q.tiers == j.apply(p.tiers, i).0
            && q.producer == p.producer && q.queue == p.queue && q.errors == p.errors
            && Sent(j, q) == Sent(j, p)
  {
  }

  lemma Accounted<S>(j: Job<S>, q: Pool<S>, order: seq<nat>, ws: seq<Worker>, taken: nat)
    requires q.order == order && q.workers == ws && |q.queue| <= Sent(j, q) && Taken(j, q) == taken
    requires TakenOnce(order, ws, taken)
    ensures TakenAccounted(j, q)
  {
  }

  lemma MoveTakeKeepsTaken<S>(j: Job<S>, p: Pool<S>, w: nat)
    requires Control(j, p) && TakenAccounted(j, p) && Enabled(j, p, Take(w))
    ensures TakenAccounted(j, Step(j, p, Take(w)))
  {
    TakeFields(j, p, w);
    TakeAccounts(p.order, p.workers, w, Taken(j, p));
  }

  lemma MoveApplyKeepsTaken<S>(j: Job<S>, p: Pool<S>, w: nat)
    requires TakenAccounted(j, p) && Enabled(j, p, Apply(w))
    ensures TakenAccounted(j, Step(j, p, Apply(w)))
  {
    var i, fails := p.workers[w].i, j.apply(p.tiers, p.workers[w].i).1;
    ApplyFields(j, p, w, i, fails);
    ApplyKeepsTaken(p.order, p.workers, w, fails, Taken(j, p));
    Accounted(j, Step(j, p, Apply(w)), p.order + [i], p.workers[w := if fails then Reporting(i) else Idle], Taken(j, p));
  }

  /** A worker that neither takes nor applies an entry. */
  lemma MoveIdlyKeepsTaken<S>(j: Job<S>, p: Pool<S>, m: Move, w: nat)
    requires TakenAccounted(j, p) && Enabled(j, p, m) && (m == Report(w) || m == Exit(w))
    ensures TakenAccounted(j, Step(j, p, m))
  {
    var x := if m.Report? then Idle else Exited;
    GatherSame(p.workers, InFlight, w, x);
    Accounted(j, Step(j, p, m), p.order, p.workers[w := x], Taken(j, p));
  }

  /** The producer changes neither the workers nor what has been taken. */
  lemma ProducerKeepsTaken<S>(j: Job<S>, p: Pool<S>, m: Move)
    requires Control(j, p) && TakenAccounted(j, p) && Enabled(j, p, m)
    requires m.Select? || m.Send? || m.Close? || m.Finish?
    ensures TakenAccounted(j, Step(j, p, m))
  {
    Accounted(j, Step(j, p, m), p.order, p.workers, Taken(j, p));
  }

  lemma StepKeepsTaken<S>(j: Job<S>, p: Pool<S>, m: Move)
    requires Control(j, p) && TakenAccounted(j, p) && Enabled(j, p, m)
    ensures TakenAccounted(j, Step(j, p, m))
  {
    match m
    case Take(w) => MoveTakeKeepsTaken(j, p, w);
    case Apply(w) => MoveApplyKeepsTaken(j, p, w);
    case Report(w) => MoveIdlyKeepsTaken(j, p, m, w);
    case Exit(w) => MoveIdlyKeepsTaken(j, p, m, w);
    case _ => ProducerKeepsTaken(j, p, m);
  }

  lemma StepKeepsFailures<S>(j: Job<S>, p: Pool<S>, m: Move)
    requires FailuresKept(p.failed, p.errors, p.workers) && Enabled(j, p, m)
    ensures FailuresKept(Step(j, p, m).failed, Step(j, p, m).errors, Step(j, p, m).workers)
  {
    match m
    case Select => SnocReport(p.errors, Nil);
    case Take(w) => GatherSame(p.workers, Unreported, w, Applying(p.queue[0]));
    case Apply(w) =>
      var i, fails := p.workers[w].i, j.apply(p.tiers, p.workers[w].i).1;
      ApplyFields(j, p, w, i, fails);
      ApplyKeepsFailures(p.failed, p.errors, p.workers, w, fails);
    case Report(w) => ReportAccounts(p.failed, p.errors, p.workers, w);
    case Exit(w) => GatherSame(p.workers, Unreported, w, Exited);
    case _ =>
  }

  lemma StepKeepsFold<S>(j: Job<S>, p: Pool<S>, m: Move)
    requires Enabled(j, p, m) && p.tiers == Fold(j, p.order)
    ensures Step(j, p, m).tiers == Fold(j, Step(j, p, m).order)
  {
    if m.Apply? {
      SnocFold(j, p.order, p.workers[m.w].i);
    }
  }

  lemma StepKeepsInv<S>(j: Job<S>, p: Pool<S>, m: Move)
    requires Inv(j, p) && Enabled(j, p, m)
    ensures Inv(j, Step(j, p, m))
  {
    StepKeepsControl(j, p, m);
    StepKeepsTaken(j, p, m);
    StepKeepsFailures(j, p, m);
    StepKeepsFold(j, p, m);
  }

  lemma {:induction false} RunKeepsInv<S>(j: Job<S>, p: Pool<S>, ms: seq<Move>, q: Pool<S>)
    requires Inv(j, p) && Runs(j, p, ms, q)
    ensures Inv(j, q)
    decreases ms
  {
    if ms != [] {
      StepKeepsInv(j, p, ms[0]);
      RunKeepsInv(j, Step(j, p, ms[0]), ms[1..], q);
    }
  }

  /** At each moment, applied plus in flight is the taken prefix, and at most one entry per worker is in flight. */
  lemma AppliedIsPrefixMinusInFlight<S>(j: Job<S>, workers: nat, ms: seq<Move>, q: Pool<S>)
    requires workers > 0 && j.channels.entryBuffer > 0 && Runs(j, Init(j, workers), ms, q)
    ensures |q.queue| <= Sent(j, q)
    ensures multiset(q.order) + Gather(q.workers, InFlight) == multiset(Range(0, Taken(j, q)))
    ensures |Gather(q.workers, InFlight)| <= |q.workers|
    ensures q.tiers == Fold(j, q.order)
  {
    InitInv(j, workers);
    RunKeepsInv(j, Init(j, workers), ms, q);
    GatherSize(q.workers, InFlight);
  }
}
