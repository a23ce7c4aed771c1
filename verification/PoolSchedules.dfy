/**
 What the schedules of a worker pool can and cannot do: when every one of them returns, when one gets
 stuck, which entry can come last, and what a single worker does.
 */
module PoolSchedules {
  import opened Sequences
  import opened ReplayPool
  import opened PoolProgress

  // ---------------------------------------------------------------- the exact condition

  predicate NoRepeats(s: seq<nat>) {
    forall a, b :: 0 <= a < b < |s| ==> s[a] != s[b]
  }

  /** Some of the first `n` entries, each at most once. */
  predicate Picks(order: seq<nat>, n: nat) {
    NoRepeats(order) && forall k :: 0 <= k < |order| ==> order[k] < n
  }

  lemma PicksFront(order: seq<nat>, n: nat)
    requires Picks(order, n) && order != []
    ensures Picks(order[..|order| - 1], n) && order == order[..|order| - 1] + [order[|order| - 1]]
  {
  }

  /** Whether an entry fails does not depend on which other entries were applied before it. */
  ghost predicate OutcomesFixed<S>(j: Job<S>, fails: nat -> bool) {
    forall order: seq<nat>, i: nat | NoRepeats(order + [i]) && i < j.count ::
      j.apply(Fold(j, order), i).1 == fails(i)
  }

  function Filter(s: seq<nat>, f: nat -> bool): seq<nat> {
    if s == [] then [] else Filter(s[..|s| - 1], f) + (if f(s[|s| - 1]) then [s[|s| - 1]] else [])
  }

  lemma {:induction false} FilterCounts(s: seq<nat>, f: nat -> bool, x: nat)
    ensures multiset(Filter(s, f))[x] == if f(x) then multiset(s)[x] else 0
  {
    if s != [] {
      FilterCounts(s[..|s| - 1], f, x);
      assert s == s[..|s| - 1] + [s[|s| - 1]];
    }
  }

  lemma FilterOfPermutation(s: seq<nat>, t: seq<nat>, f: nat -> bool)
    requires multiset(s) == multiset(t)
    ensures multiset(Filter(s, f)) == multiset(Filter(t, f))
    ensures |Filter(s, f)| == |Filter(t, f)|
  {
    forall x ensures multiset(Filter(s, f))[x] == multiset(Filter(t, f))[x] {
      FilterCounts(s, f, x);
      FilterCounts(t, f, x);
    }
    assert |multiset(Filter(s, f))| == |Filter(s, f)|;
    assert |multiset(Filter(t, f))| == |Filter(t, f)|;
  }

  function Chosen(n: nat, f: nat -> bool): set<nat> {
    set i: nat | i < n && f(i)
  }

  /** Filtering the first `n` numbers leaves as many as the predicate holds of. */
  lemma {:induction false} FilterSize(n: nat, f: nat -> bool)
    ensures |Filter(Range(0, n), f)| == |Chosen(n, f)|
  {
    if n > 0 {
      FilterSize(n - 1, f);
      SnocRange(0, n - 1);
      assert Range(0, n)[..n - 1] == Range(0, n - 1);
      assert Chosen(n, f) == Chosen(n - 1, f) + if f(n - 1) then {n - 1} else {};
    }
  }

  lemma CountsTwice(s: seq<nat>, a: nat, b: nat)
    requires a < b < |s|
    ensures s[a] == s[b] ==> multiset(s)[s[a]] >= 2
  {
    assert s == s[..a] + [s[a]] + s[a + 1..b] + [s[b]] + s[b + 1..];
  }

  lemma RangeNoRepeats(s: seq<nat>, more: multiset<nat>, n: nat)
    requires multiset(s) + more == multiset(Range(0, n))
    ensures NoRepeats(s)
    ensures forall x :: x in s ==> x < n
  {
    forall a, b | 0 <= a < b < |s| ensures s[a] != s[b] {
      RangeCount(n, s[a]);
      CountsTwice(s, a, b);
      assert multiset(s)[s[a]] <= (multiset(s) + more)[s[a]];
    }
    forall x | x in s ensures x < n {
      assert x in multiset(s) + more;
      assert x in Range(0, n);
    }
  }

  lemma {:induction false} RangeCount(n: nat, x: nat)
    ensures multiset(Range(0, n))[x] <= 1
  {
    if n > 0 {
      RangeCount(n - 1, x);
      SnocRange(0, n - 1);
      if x == n - 1 {
        assert x !in Range(0, n - 1);
      }
    }
  }

  /** The listed entries whose application, in that order, fails. */
  function FailedOf<S>(j: Job<S>, order: seq<nat>): seq<nat> {
    if order == [] then []
    else
      var front, i := order[..|order| - 1], order[|order| - 1];
      FailedOf(j, front) + (if j.apply(Fold(j, front), i).1 then [i] else [])
  }

  /** No entry comes `workers` or more places ahead of its turn. */
  predicate WithinReach(order: seq<nat>, workers: nat) {
    forall k :: 0 <= k < |order| ==> order[k] < k + workers
  }

  /** The failures recorded are those of the order of application, which no worker has run ahead of. */
  ghost predicate Traced<S>(j: Job<S>, p: Pool<S>) {
    Inv(j, p) && p.failed == FailedOf(j, p.order) && WithinReach(p.order, |p.workers|)
  }

  /** An entry in flight is one of the first that are neither applied nor in another worker's hands. */
  lemma InFlightWithin(order: seq<nat>, ws: seq<Worker>, taken: nat, w: nat)
    requires TakenOnce(order, ws, taken) && w < |ws| && ws[w].Applying?
    ensures ws[w].i < |order| + |ws|
  {
    TakenCount(order, ws, taken);
    GatherHas(ws, InFlight, w);
    GatherSize(ws, InFlight);
    assert ws[w].i in multiset(order) + Gather(ws, InFlight);
    assert ws[w].i in Range(0, taken);
  }

  lemma TakenCount(order: seq<nat>, ws: seq<Worker>, taken: nat)
    requires TakenOnce(order, ws, taken)
    ensures multiset(order) + Gather(ws, InFlight) == multiset(Range(0, taken))
    ensures |order| + |Gather(ws, InFlight)| == taken
  {
    assert multiset(order) + Gather(ws, InFlight) == multiset(Range(0, taken));
    assert |multiset(order)| == |order| && |multiset(Range(0, taken))| == taken;
  }

  lemma SnocFailed<S>(j: Job<S>, order: seq<nat>, i: nat)
    ensures FailedOf(j, order + [i]) == FailedOf(j, order) + if j.apply(Fold(j, order), i).1 then [i] else []
  {
    assert (order + [i])[..|order|] == order;
  }

  lemma StepTraced<S>(j: Job<S>, p: Pool<S>, m: Move)
    requires Traced(j, p) && Enabled(j, p, m)
    ensures Traced(j, Step(j, p, m)) && Measure(j, Step(j, p, m)) < Measure(j, p)
  {
    StepDecreases(j, p, m);
    if m.Apply? {
      ApplyTraced(j, p, m.w);
    } else {
      OtherwiseTraced(j, p, m);
    }
  }

  lemma ApplyTraced<S>(j: Job<S>, p: Pool<S>, w: nat)
    requires Traced(j, p) && Enabled(j, p, Apply(w))
    ensures var q := Step(j, p, Apply(w));
            q.failed == FailedOf(j, q.order) && WithinReach(q.order, |q.workers|)
  {
    var i := p.workers[w].i;
    ApplyFields(j, p, w, i, j.apply(p.tiers, i).1);
    SnocFailed(j, p.order, i);
    AppendNothing(FailedOf(j, p.order));
    InFlightWithin(p.order, p.workers, Taken(j, p), w);
  }

  lemma OtherwiseTraced<S>(j: Job<S>, p: Pool<S>, m: Move)
    requires Enabled(j, p, m) && !m.Apply?
    ensures var q := Step(j, p, m);
            q.failed == p.failed && q.order == p.order && |q.workers| == |p.workers|
  {
  }

  lemma {:induction false} RunTraced<S>(j: Job<S>, p: Pool<S>, ms: seq<Move>, q: Pool<S>)
    requires Traced(j, p) && Runs(j, p, ms, q)
    ensures Traced(j, q) && |q.workers| == |p.workers|
    decreases ms
  {
    if ms != [] {
      StepTraced(j, p, ms[0]);
      RunTraced(j, Step(j, p, ms[0]), ms[1..], q);
    }
  }

  /** With fixed outcomes, what fails is determined by what has been applied. */
  lemma {:induction false} FailedIsFilter<S>(j: Job<S>, order: seq<nat>, fails: nat -> bool)
    requires OutcomesFixed(j, fails) && Picks(order, j.count)
    ensures FailedOf(j, order) == Filter(order, fails)
  {
    if order != [] {
      var front := order[..|order| - 1];
      PicksFront(order, j.count);
      FailedIsFilter(j, front, fails);
    }
  }

  /** Applied entries are distinct and exist. */
  lemma AppliedOnce<S>(j: Job<S>, p: Pool<S>)
    requires Inv(j, p)
    ensures Picks(p.order, j.count)
  {
    RangeNoRepeats(p.order, Gather(p.workers, InFlight), Taken(j, p));
    forall k | 0 <= k < |p.order| ensures p.order[k] < j.count {
      assert p.order[k] in p.order;
    }
  }

  /** Nils are never taken back. */
  lemma {:induction false} NilsStay<S>(j: Job<S>, p: Pool<S>, ms: seq<Move>, q: Pool<S>)
    requires Runs(j, p, ms, q)
    ensures Nils(q.errors) >= Nils(p.errors)
    decreases ms
  {
    if ms != [] {
      var t := Step(j, p, ms[0]);
      SnocReport(p.errors, Nil);
      if ms[0].Report? {
        SnocReport(p.errors, Failure(p.workers[ms[0].w].i));
      }
      NilsStay(j, t, ms[1..], q);
    }
  }

  function FailureCount<S>(j: Job<S>, fails: nat -> bool): nat {
    |Filter(Range(0, j.count), fails)|
  }

  /** The producer has offered `n` nils and sent `n` entries, and no worker has moved. */
  ghost predicate AllAhead<S>(j: Job<S>, workers: nat, q: Pool<S>, n: nat) {
    && q == Init(j, workers).(producer := Selecting(n), queue := q.queue, errors := q.errors, replayed := n)
    && |q.queue| == n && |q.errors| == n && Nils(q.errors) == n
  }

  lemma OneAhead<S>(j: Job<S>, workers: nat, p: Pool<S>, n: nat)
    requires AllAhead(j, workers, p, n) && j.channels.offersNils && n < j.count && n < j.channels.errorBuffer <= j.channels.entryBuffer
    ensures Enabled(j, p, Select) && Enabled(j, Step(j, p, Select), Send)
    ensures AllAhead(j, workers, Step(j, Step(j, p, Select), Send), n + 1)
  {
    SnocReport(p.errors, Nil);
  }

  /** The producer alone, ahead of all workers, fills the error channel with nils. */
  lemma {:induction false} ProducerAhead<S>(j: Job<S>, workers: nat, n: nat) returns (ms: seq<Move>, q: Pool<S>)
    requires j.channels.offersNils && n <= j.count && n <= j.channels.errorBuffer <= j.channels.entryBuffer
    ensures Runs(j, Init(j, workers), ms, q) && AllAhead(j, workers, q, n)
  {
    if n == 0 {
      ms, q := [], Init(j, workers);
    } else {
      var ms0, p := ProducerAhead(j, workers, n - 1);
      OneAhead(j, workers, p, n - 1);
      var p1 := Step(j, p, Select);
      q := Step(j, p1, Send);
      RunsOne(j, p1, Send);
      RunsCons(j, p, Select, [Send], q);
      RunsConcat(j, Init(j, workers), ms0, p, [Select] + [Send], q);
      ms := ms0 + ([Select] + [Send]);
    }
  }

  lemma {:induction false} RunsConcat<S>(j: Job<S>, p: Pool<S>, ms: seq<Move>, q: Pool<S>, ns: seq<Move>, r: Pool<S>)
    requires Runs(j, p, ms, q) && Runs(j, q, ns, r)
    ensures Runs(j, p, ms + ns, r)
    decreases ms
  {
    if ms == [] {
      NothingFirst(ns);
    } else {
      ConcatTail(ms, ns);
      RunsConcat(j, Step(j, p, ms[0]), ms[1..], q, ns, r);
    }
  }

  /** Every state can be run until nothing is enabled. */
  lemma RunToTheEnd<S>(j: Job<S>, p: Pool<S>) returns (ms: seq<Move>, q: Pool<S>)
    requires Inv(j, p)
    ensures Runs(j, p, ms, q) && !CanMove(j, q)
    decreases Measure(j, p)
  {
    if m :| Enabled(j, p, m) {
      StepDecreases(j, p, m);
      var rest;
      rest, q := RunToTheEnd(j, Step(j, p, m));
      ms := [m] + rest;
      assert ms[1..] == rest;
    } else {
      ms, q := [], p;
    }
  }

  ghost predicate Stuck<S>(j: Job<S>, workers: nat, ms: seq<Move>, q: Pool<S>) {
    Runs(j, Init(j, workers), ms, q) && !CanMove(j, q) && !q.producer.Finished?
  }

  /** Without nils no schedule at all gets past more failures than the channel holds. */
  lemma FinishNeedsRoom<S>(j: Job<S>, workers: nat, ms: seq<Move>, q: Pool<S>, fails: nat -> bool)
    requires Runnable(j, workers) && OutcomesFixed(j, fails)
    requires Runs(j, Init(j, workers), ms, q) && q.producer.Finished?
    ensures FailureCount(j, fails) <= j.channels.errorBuffer
  {
    InitInv(j, workers);
    RunTraced(j, Init(j, workers), ms, q);
    FinishedIsComplete(j, q);
    AppliedOnce(j, q);
    FailedIsFilter(j, q.order, fails);
    FilterOfPermutation(q.order, Range(0, j.count), fails);
    ReportCount(q.errors);
    assert |multiset(Failures(q.errors))| == |Failures(q.errors)| && |multiset(q.failed)| == |q.failed|;
  }

  // ---------------------------------------------------------------- all the entries

  predicate InRange(order: seq<nat>, n: nat) {
    forall k :: 0 <= k < |order| ==> order[k] < n
  }

  lemma PermutationOfRange(order: seq<nat>, n: nat)
    requires multiset(order) == multiset(Range(0, n))
    ensures InRange(order, n)
    ensures forall i :: i in order <==> i in Range(0, n)
  {
    forall i ensures i in order <==> i in Range(0, n) {
      assert i in order <==> i in multiset(order);
      assert i in Range(0, n) <==> i in multiset(Range(0, n));
    }
    forall k | 0 <= k < |order| ensures order[k] < n {
      assert order[k] in Range(0, n);
    }
  }

  /** An order of all the entries. */
  lemma AllInOrder(order: seq<nat>, n: nat)
    requires multiset(order) == multiset(Range(0, n))
    ensures InRange(order, n) && forall i :: i in order <==> 0 <= i < n
  {
    PermutationOfRange(order, n);
    forall i ensures i in order <==> 0 <= i < n {
      assert 0 <= i < n ==> Range(0, n)[i] == i;
    }
  }

  // ---------------------------------------------------------------- running it

  /** However far `workers` workers can reorder the entries, the error channel has room for the failures. */
  ghost predicate OrdersFit<S>(j: Job<S>, workers: nat) {
    forall order :: Picks(order, j.count) && WithinReach(order, workers) ==> RoomForErrors(j, |FailedOf(j, order)|)
  }

  lemma OrdersFitNow<S>(j: Job<S>, p: Pool<S>)
    requires OrdersFit(j, |p.workers|) && Traced(j, p)
    ensures RoomForErrors(j, |p.failed|)
  {
    AppliedOnce(j, p);
  }

  lemma SafeEntriesFit<S>(j: Job<S>, workers: nat)
    requires forall t, i: nat | i < j.count :: !j.apply(t, i).1
    ensures OrdersFit(j, workers)
  {
    forall order | Picks(order, j.count) ensures FailedOf(j, order) == [] {
      NothingFails(j, order);
    }
  }

  lemma {:induction false} NothingFails<S>(j: Job<S>, order: seq<nat>)
    requires (forall t, i: nat | i < j.count :: !j.apply(t, i).1) && Picks(order, j.count)
    ensures FailedOf(j, order) == []
  {
    if order != [] {
      PicksFront(order, j.count);
      NothingFails(j, order[..|order| - 1]);
    }
  }

  function Sum(order: seq<nat>, f: nat -> nat): nat {
    if order == [] then 0 else Sum(order[..|order| - 1], f) + f(order[|order| - 1])
  }

  lemma {:induction false} SumConcat(a: seq<nat>, b: seq<nat>, f: nat -> nat)
    ensures Sum(a + b, f) == Sum(a, f) + Sum(b, f)
  {
    if b == [] {
      AppendNothing(a);
    } else {
      SumConcat(a, b[..|b| - 1], f);
      assert (a + b)[..|a + b| - 1] == a + b[..|b| - 1];
    }
  }

  lemma SumOne(x: nat, f: nat -> nat)
    ensures Sum([x], f) == f(x)
  {
    assert [x][..0] == [];
  }

  lemma SumAround(a: seq<nat>, x: nat, b: seq<nat>, f: nat -> nat)
    ensures Sum(a + ([x] + b), f) == Sum(a + b, f) + f(x)
  {
    SumConcat(a, [x] + b, f);
    SumConcat([x], b, f);
    SumConcat(a, b, f);
    SumOne(x, f);
  }

  lemma SumWithout(order: seq<nat>, k: nat, f: nat -> nat)
    requires k < |order|
    ensures Sum(order, f) == Sum(order[..k] + order[k + 1..], f) + f(order[k])
  {
    SplitAround(order, k);
    SumAround(order[..k], order[k], order[k + 1..], f);
  }

  lemma PicksWithout(order: seq<nat>, k: nat, n: nat)
    requires Picks(order, n) && k < |order| && order[k] == n - 1
    ensures Picks(order[..k] + order[k + 1..], n - 1)
  {
    var rest := order[..k] + order[k + 1..];
    forall i | 0 <= i < |rest| ensures rest[i] < n - 1 && rest[i] == order[if i < k then i else i + 1] {
      assert order[if i < k then i else i + 1] != order[k];
    }
  }

  /** What is picked weighs no more than everything. */
  lemma {:induction false} PicksSum(order: seq<nat>, n: nat, f: nat -> nat)
    requires Picks(order, n)
    ensures Sum(order, f) <= Sum(Range(0, n), f)
  {
    if order != [] {
      assert order[0] < n;
      SnocRange(0, n - 1);
      SumConcat(Range(0, n - 1), [n - 1], f);
      if k :| 0 <= k < |order| && order[k] == n - 1 {
        SumWithout(order, k, f);
        PicksWithout(order, k, n);
        PicksSum(order[..k] + order[k + 1..], n - 1, f);
      } else {
        PicksSum(order, n - 1, f);
      }
    }
  }

  lemma {:induction false} SumOfOnes(order: seq<nat>)
    ensures Sum(order, _ => 1) == |order|
  {
    if order != [] {
      SumOfOnes(order[..|order| - 1]);
    }
  }

  lemma {:induction false} FailedNoLonger<S>(j: Job<S>, order: seq<nat>)
    ensures |FailedOf(j, order)| <= |order|
  {
    if order != [] {
      FailedNoLonger(j, order[..|order| - 1]);
    }
  }

  /** A log so short that the channel could hold a nil and a failure for each of its entries. */
  lemma ShortLogsFit<S>(j: Job<S>, workers: nat)
    requires 2 * j.count <= j.channels.errorBuffer
    ensures OrdersFit(j, workers)
  {
    forall order | Picks(order, j.count) ensures RoomForErrors(j, |FailedOf(j, order)|) {
      PicksSum(order, j.count, _ => 1);
      SumOfOnes(order);
      SumOfOnes(Range(0, j.count));
      FailedNoLonger(j, order);
    }
  }

  lemma {:induction false} FilterLength(order: seq<nat>, f: nat -> bool)
    ensures |Filter(order, f)| == Sum(order, (x: nat) => if f(x) then 1 else 0)
  {
    if order != [] {
      FilterLength(order[..|order| - 1], f);
    }
  }

  /** Where outcomes are fixed this is the condition under which every schedule returns. */
  lemma FixedErrorsFitIff<S>(j: Job<S>, workers: nat, fails: nat -> bool)
    requires workers > 0 && OutcomesFixed(j, fails)
    ensures OrdersFit(j, workers) <==> RoomForErrors(j, FailureCount(j, fails))
  {
    var all := Range(0, j.count);
    FailedIsFilter(j, all, fails);
    forall order | Picks(order, j.count) ensures |FailedOf(j, order)| <= FailureCount(j, fails) {
      FailedIsFilter(j, order, fails);
      FilterLength(order, fails);
      FilterLength(all, fails);
      PicksSum(order, j.count, (x: nat) => if fails(x) then 1 else 0);
    }
  }

  /** A scheduler, which may also go by how many moves were made, that always makes a possible one. */
  ghost predicate Obliging<S(!new)>(j: Job<S>, schedule: (nat, Pool<S>) -> Move) {
    forall n, p :: CanMove(j, p) ==> Enabled(j, p, schedule(n, p))
  }

  /** The pool run by any such scheduler: it returns, with everything done. */
  method RunPool<S(!new)>(j: Job<S>, workers: nat, schedule: (nat, Pool<S>) -> Move) returns (q: Pool<S>, ghost ms: seq<Move>)
    requires workers > 0 && j.channels.entryBuffer > 0 && OrdersFit(j, workers) && Obliging(j, schedule)
    ensures Runs(j, Init(j, workers), ms, q) && Complete(j, q) && q.failed == FailedOf(j, q.order)
  {
    q, ms := Init(j, workers), [];
    InitInv(j, workers);
    var n := 0;
    while !q.producer.Finished?
      invariant Traced(j, q) && |q.workers| == workers && Runs(j, Init(j, workers), ms, q)
      decreases Measure(j, q)
    {
      OrdersFitNow(j, q);
      Progress(j, q);
      var m := schedule(n, q);
      StepTraced(j, q, m);
      RunsOne(j, q, m);
      RunsConcat(j, Init(j, workers), ms, q, [m], Step(j, q, m));
      q, ms, n := Step(j, q, m), ms + [m], n + 1;
    }
    FinishedIsComplete(j, q);
  }

  lemma RunsCons<S>(j: Job<S>, p: Pool<S>, m: Move, ms: seq<Move>, q: Pool<S>)
    requires Enabled(j, p, m) && Runs(j, Step(j, p, m), ms, q)
    ensures Runs(j, p, [m] + ms, q)
  {
    assert ([m] + ms)[1..] == ms;
  }

  lemma RunsOne<S>(j: Job<S>, p: Pool<S>, m: Move)
    requires Enabled(j, p, m)
    ensures Runs(j, p, [m], Step(j, p, m))
  {
    assert [m][1..] == [];
  }

  // ---------------------------------------------------------------- a schedule that holds one entry back

  /** What remains is reached without worker 0 until entry `i` is next. */
  lemma ReachEntry<S>(j: Job<S>, p: Pool<S>, i: nat) returns (ms: seq<Move>, q: Pool<S>)
    requires Traced(j, p) && OrdersFit(j, |p.workers|) && |p.workers| >= 2 && p.workers[0].Idle?
    requires Taken(j, p) <= i < j.count
    ensures Runs(j, p, ms, q) && Traced(j, q) && |q.workers| == |p.workers|
    ensures q.workers[0].Idle? && q.queue != [] && q.queue[0] == i
    decreases Measure(j, p)
  {
    if p.queue != [] && Taken(j, p) == i {
      ms, q := [], p;
    } else {
      OrdersFitNow(j, p);
      var m := TowardsEntry(j, p, i);
      StepTraced(j, p, m);
      var rest;
      rest, q := ReachEntry(j, Step(j, p, m), i);
      RunsCons(j, p, m, rest, q);
      ms := [m] + rest;
    }
  }

  lemma TowardsEntry<S>(j: Job<S>, p: Pool<S>, i: nat) returns (m: Move)
    requires Inv(j, p) && |p.workers| >= 2 && p.workers[0].Idle? && RoomForErrors(j, |p.failed|)
    requires Taken(j, p) <= i < j.count && (p.queue != [] ==> Taken(j, p) < i)
    ensures Enabled(j, p, m) && Step(j, p, m).workers[0].Idle? && |Step(j, p, m).workers| == |p.workers|
    ensures |Step(j, p, m).queue| <= Sent(j, Step(j, p, m)) && Taken(j, Step(j, p, m)) <= i
  {
    if p.queue == [] {
      m := if p.producer.Selecting? then Select else Send;
    } else if p.workers[1].Idle? {
      m := Take(1);
    } else if p.workers[1].Applying? {
      m := Apply(1);
    } else {
      m := Report(1);
      RoomToReport(j, p, 1);
    }
  }

  /** All but worker 0 are through. */
  ghost predicate OthersGone<S>(p: Pool<S>) {
    && |p.workers| > 0 && p.producer.Waiting? && p.queue == []
    && forall w :: 0 < w < |p.workers| ==> p.workers[w].Exited?
  }

  /** And it still has entry `i` in hand. */
  ghost predicate OnlyHeld<S>(p: Pool<S>, i: nat) {
    OthersGone(p) && p.workers[0] == Applying(i)
  }

  lemma FinishOthers<S>(j: Job<S>, p: Pool<S>, i: nat) returns (ms: seq<Move>, q: Pool<S>)
    requires Traced(j, p) && OrdersFit(j, |p.workers|) && |p.workers| >= 2 && p.workers[0] == Applying(i)
    ensures Runs(j, p, ms, q) && Traced(j, q) && |q.workers| == |p.workers| && OnlyHeld(q, i)
    decreases Measure(j, p)
  {
    if OnlyHeld(p, i) {
      ms, q := [], p;
    } else {
      OrdersFitNow(j, p);
      var m := TowardsTheEnd(j, p, i);
      StepTraced(j, p, m);
      var rest;
      rest, q := FinishOthers(j, Step(j, p, m), i);
      RunsCons(j, p, m, rest, q);
      ms := [m] + rest;
    }
  }

  lemma TowardsTheEnd<S>(j: Job<S>, p: Pool<S>, i: nat) returns (m: Move)
    requires Inv(j, p) && |p.workers| >= 2 && p.workers[0] == Applying(i) && RoomForErrors(j, |p.failed|)
    requires !OnlyHeld(p, i)
    ensures Enabled(j, p, m) && Step(j, p, m).workers[0] == Applying(i) && |Step(j, p, m).workers| == |p.workers|
  {
    if w: nat :| 0 < w < |p.workers| && p.workers[w].Reporting? {
      m := Report(w);
      RoomToReport(j, p, w);
    } else if w: nat :| 0 < w < |p.workers| && p.workers[w].Applying? {
      m := Apply(w);
    } else if p.producer.Selecting? {
      m := if p.producer.i < j.count then Select else Close;
    } else if p.producer.Sending? {
      m := if |p.queue| < j.channels.entryBuffer then Send else Take(1);
    } else {
      assert p.producer.Waiting?;
      var w: nat :| 0 < w < |p.workers| && p.workers[w].Idle?;
      m := if p.queue != [] then Take(w) else Exit(w);
    }
  }

  lemma HeldApplied<S>(j: Job<S>, p: Pool<S>, i: nat)
    requires OnlyHeld(p, i)
    ensures var t := Step(j, p, Apply(0));
            OthersGone(t) && t.order == p.order + [i] && (t.workers[0].Idle? || t.workers[0].Reporting?)
  {
  }

  lemma HeldReported<S>(j: Job<S>, p: Pool<S>)
    requires OthersGone(p) && p.workers[0].Reporting? && Enabled(j, p, Report(0))
    ensures var t := Step(j, p, Report(0)); OthersGone(t) && t.order == p.order && t.workers[0].Idle?
  {
  }

  /** Worker 0 applies the entry it held and reports a failure. */
  lemma ApplyHeld<S>(j: Job<S>, p: Pool<S>, i: nat) returns (ms: seq<Move>, q: Pool<S>)
    requires Traced(j, p) && OrdersFit(j, |p.workers|) && OnlyHeld(p, i)
    ensures Runs(j, p, ms, q) && OthersGone(q) && q.workers[0].Idle? && q.order == p.order + [i]
  {
    HeldApplied(j, p, i);
    q := Step(j, p, Apply(0));
    StepTraced(j, p, Apply(0));
    RunsOne(j, p, Apply(0));
    ms := [Apply(0)];
    if q.workers[0].Reporting? {
      OrdersFitNow(j, q);
      RoomToReport(j, q, 0);
      HeldReported(j, q);
      RunsOne(j, q, Report(0));
      RunsConcat(j, p, ms, q, [Report(0)], Step(j, q, Report(0)));
      ms, q := ms + [Report(0)], Step(j, q, Report(0));
    }
  }

  /** And everybody goes home. */
  lemma GoHome<S>(j: Job<S>, p: Pool<S>) returns (ms: seq<Move>, q: Pool<S>)
    requires OthersGone(p) && p.workers[0].Idle?
    ensures Runs(j, p, ms, q) && q.producer.Finished? && q.order == p.order
  {
    var t := Step(j, p, Exit(0));
    q := Step(j, t, Finish);
    RunsOne(j, t, Finish);
    RunsCons(j, p, Exit(0), [Finish], q);
    ms := [Exit(0)] + [Finish];
  }

  /** With two workers or more, any entry can be the last one applied. */
  lemma HoldBack<S>(j: Job<S>, workers: nat, i: nat) returns (ms: seq<Move>, q: Pool<S>)
    requires workers >= 2 && j.channels.entryBuffer > 0 && OrdersFit(j, workers) && i < j.count
    ensures Runs(j, Init(j, workers), ms, q) && q.producer.Finished?
    ensures q.order != [] && q.order[|q.order| - 1] == i
  {
    InitInv(j, workers);
    var ms0, p0 := ReachEntry(j, Init(j, workers), i);
    var p1 := Step(j, p0, Take(0));
    StepTraced(j, p0, Take(0));
    RunsOne(j, p0, Take(0));
    RunsConcat(j, Init(j, workers), ms0, p0, [Take(0)], p1);
    var ms2, p2 := FinishOthers(j, p1, i);
    RunsConcat(j, Init(j, workers), ms0 + [Take(0)], p1, ms2, p2);
    var ms3, p3 := ApplyHeld(j, p2, i);
    RunsConcat(j, Init(j, workers), ms0 + [Take(0)] + ms2, p2, ms3, p3);
    var ms4;
    ms4, q := GoHome(j, p3);
    RunsConcat(j, Init(j, workers), ms0 + [Take(0)] + ms2 + ms3, p3, ms4, q);
    ms := ms0 + [Take(0)] + ms2 + ms3 + ms4;
  }

  // ---------------------------------------------------------------- one worker

  lemma RangeHas(n: nat, x: nat)
    ensures x < n ==> x in Range(0, n)
  {
    if x < n {
      assert Range(0, n)[x] == x;
    }
  }

  /** Nothing comes ahead of its turn: that is the log's own order. */
  lemma {:induction false} WithinOne(order: seq<nat>, n: nat)
    requires Picks(order, n) && WithinReach(order, 1)
    ensures |order| <= n && order == Range(0, |order|)
  {
    if order != [] {
      var k := |order| - 1;
      PicksFront(order, n);
      WithinOne(order[..k], n);
      assert forall i :: 0 <= i < k ==> order[..k][i] != order[k];
      RangeHas(k, order[k]);
      SnocRange(0, k);
    }
  }

  /** One worker replays in log order, whatever the entries are. */
  lemma SingleWorkerReplay<S>(j: Job<S>, ms: seq<Move>, q: Pool<S>)
    requires j.channels.entryBuffer > 0 && Runs(j, Init(j, 1), ms, q) && q.producer.Finished?
    ensures q.order == Range(0, j.count) && q.tiers == Fold(j, Range(0, j.count))
  {
    InitInv(j, 1);
    RunTraced(j, Init(j, 1), ms, q);
    AppliedOnce(j, q);
    WithinOne(q.order, j.count);
    FinishedIsComplete(j, q);
    SameSize(q.order, Range(0, j.count));
  }
}
