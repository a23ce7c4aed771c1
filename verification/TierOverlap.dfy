/**
 Operations on one key that do overlap (pkg/tieredcache/tieredcache.go:382-385, 646-665): what a Get finds
 after a tiering task or a promotion has landed, in terms of the writes completed since it took its copy.
 */
module TierOverlap {
  import opened Bytes
  import opened Payloads
  import opened Sequences
  import opened TierProtocol
  import opened TierFreshness

  // ---------------------------------------------------------------- completed writes

  /** What an event does to the value of `k`, if anything. */
  function WriteOf(e: Event, k: Key): seq<Option<Value>> {
    if e.Wrote? && e.key == k then [Some(e.v)] else if e.Removed? && e.key == k then [None] else []
  }

  /** The outcomes of the writes and removals of `k` that a stretch of history records. */
  function WritesOf(h: seq<Event>, k: Key): seq<Option<Value>> {
    if h == [] then [] else WritesOf(h[..|h| - 1], k) + WriteOf(h[|h| - 1], k)
  }

  /** The last of them, or what there was before. */
  function Latest(ws: seq<Option<Value>>, before: Option<Value>): Option<Value> {
    if ws == [] then before else ws[|ws| - 1]
  }

  function At(m: map<Key, Value>, k: Key): Option<Value> {
    if k in m then Some(m[k]) else None
  }

  lemma WritesOfSnoc(h: seq<Event>, e: Event, k: Key)
    ensures WritesOf(h + [e], k) == WritesOf(h, k) + WriteOf(e, k)
  {
    assert (h + [e])[..|h|] == h;
  }

  lemma {:induction false} WritesOfConcat(g: seq<Event>, h: seq<Event>, k: Key)
    ensures WritesOf(g + h, k) == WritesOf(g, k) + WritesOf(h, k)
  {
    if h == [] {
      AppendNothing(g);
      AppendNothing(WritesOf(g, k));
    } else {
      var front, e := h[..|h| - 1], h[|h| - 1];
      WritesOfConcat(g, front, k);
      SplitSeq(h, |h| - 1);
      assert h[|h| - 1..] == [e];
      Associate(g, front, [e]);
      WritesOfSnoc(g + front, e, k);
      Associate(WritesOf(g, k), WritesOf(front, k), WriteOf(e, k));
    }
  }

  lemma LastWriteSnoc(h: seq<Event>, e: Event, k: Key)
    ensures LastWrite(h + [e], k) == Latest(WriteOf(e, k), LastWrite(h, k))
  {
    LogWrites(h, e);
  }

  lemma LatestOfBoth(ws: seq<Option<Value>>, vs: seq<Option<Value>>, before: Option<Value>)
    ensures Latest(ws + vs, before) == Latest(vs, Latest(ws, before))
  {
    if vs == [] {
      AppendNothing(ws);
    }
  }

  lemma {:induction false} LastWriteSplits(g: seq<Event>, h: seq<Event>, k: Key)
    ensures LastWrite(g + h, k) == Latest(WritesOf(h, k), LastWrite(g, k))
  {
    if h == [] {
      AppendNothing(g);
    } else {
      var front, e := h[..|h| - 1], h[|h| - 1];
      LastWriteSplits(g, front, k);
      SplitSeq(h, |h| - 1);
      assert h[|h| - 1..] == [e];
      Associate(g, front, [e]);
      LastWriteSnoc(g + front, e, k);
      LatestOfBoth(WritesOf(front, k), WriteOf(e, k), LastWrite(g, k));
    }
  }

  // ---------------------------------------------------------------- what L1 holds meanwhile

  /** No tiering task but `id` is about to copy `k`: the source has one, which takes keys in turn. */
  ghost predicate OneTierer(s: State, id: nat, k: Key) {
    forall i :: i in s.tasks && i != id && s.tasks[i].key == k ==> !s.tasks[i].op.TierCopy?
  }

  /** Anything but a step of task `id` or a crash. */
  predicate Elsewhere(a: Action, id: nat) {
    !(a.Advance? && a.id == id) && !a.Crash?
  }

  /** Nor another tiering task for `k`. */
  predicate Other(a: Action, id: nat, k: Key) {
    Elsewhere(a, id) && !(a.StartTier? && a.key == k)
  }

  predicate Others(acts: seq<Action>, id: nat, k: Key) {
    forall i :: 0 <= i < |acts| ==> Other(acts[i], id, k)
  }

  /** L1's value of `k` follows the writes completed, and task `id` waits. */
  ghost predicate Follows(s: State, t: State, id: nat, k: Key) {
    && OneTierer(t, id, k) && id in s.tasks && id in t.tasks && t.tasks[id] == s.tasks[id]
    && s.history <= t.history
    && At(t.l1, k) == Latest(WritesOf(t.history[|s.history|..], k), At(s.l1, k))
  }

  lemma SinceNothing(s: State, t: State, id: nat, k: Key)
    requires OneTierer(t, id, k) && id in s.tasks && id in t.tasks && t.tasks[id] == s.tasks[id]
    requires t.history == s.history && At(t.l1, k) == At(s.l1, k)
    ensures Follows(s, t, id, k)
  {
    assert t.history[|s.history|..] == [];
  }

  lemma SinceOne(s: State, t: State, id: nat, k: Key, e: Event)
    requires OneTierer(t, id, k) && id in s.tasks && id in t.tasks && t.tasks[id] == s.tasks[id]
    requires t.history == s.history + [e]
    requires At(t.l1, k) == Latest(WriteOf(e, k), At(s.l1, k))
    ensures Follows(s, t, id, k)
  {
    assert t.history[|s.history|..] == [e];
    WritesOfSnoc([], e, k);
    assert [] + [e] == [e];
  }

  lemma FollowsOn(s: State, t: State, u: State, id: nat, k: Key)
    requires Follows(s, t, id, k) && Follows(t, u, id, k)
    ensures Follows(s, u, id, k)
  {
    var g, h := t.history[|s.history|..], u.history[|t.history|..];
    assert u.history[|s.history|..] == g + h;
    WritesOfConcat(g, h, k);
  }

  lemma DoKeepsTierer(maxPayload: nat, s: State, i: nat, l1Ok: bool, id: nat, k: Key)
    requires OneTierer(s, id, k) && i in s.tasks
    ensures OneTierer(Do(maxPayload, s, i, s.tasks[i].key, s.tasks[i].op, l1Ok), id, k)
  {
  }

  /** A call logs at most one event, and L1 changes by what it logs, but for copies. */
  lemma DoAtL1(maxPayload: nat, s: State, i: nat, j: Key, op: Op, l1Ok: bool, k: Key)
    requires j == k ==> !op.TierCopy?
    ensures var t := Do(maxPayload, s, i, j, op, l1Ok);
            (t.history == s.history && At(t.l1, k) == At(s.l1, k))
            || (exists e :: t.history == s.history + [e] && At(t.l1, k) == Latest(WriteOf(e, k), At(s.l1, k)))
  {
    var t := Do(maxPayload, s, i, j, op, l1Ok);
    if t.history != s.history {
      var e := t.history[|s.history|];
      assert t.history == s.history + [e] && At(t.l1, k) == Latest(WriteOf(e, k), At(s.l1, k));
    }
  }

  lemma DoKeepsTask(maxPayload: nat, s: State, i: nat, j: Key, op: Op, l1Ok: bool, id: nat)
    requires id in s.tasks && i != id
    ensures var t := Do(maxPayload, s, i, j, op, l1Ok); id in t.tasks && t.tasks[id] == s.tasks[id]
  {
  }

  lemma DoFollows(maxPayload: nat, s: State, i: nat, l1Ok: bool, id: nat, k: Key)
    requires OneTierer(s, id, k) && id in s.tasks && i in s.tasks && i != id
    ensures Follows(s, Do(maxPayload, s, i, s.tasks[i].key, s.tasks[i].op, l1Ok), id, k)
  {
    var j, op := s.tasks[i].key, s.tasks[i].op;
    var t := Do(maxPayload, s, i, j, op, l1Ok);
    DoKeepsTierer(maxPayload, s, i, l1Ok, id, k);
    DoKeepsTask(maxPayload, s, i, j, op, l1Ok, id);
    DoAtL1(maxPayload, s, i, j, op, l1Ok, k);
    if t.history == s.history {
      SinceNothing(s, t, id, k);
    } else {
      var e :| t.history == s.history + [e] && At(t.l1, k) == Latest(WriteOf(e, k), At(s.l1, k));
      SinceOne(s, t, id, k, e);
    }
  }

  lemma DirectSetFollows(maxPayload: nat, s: State, a: Action, id: nat, k: Key)
    requires OneTierer(s, id, k) && id in s.tasks && a.DirectSet? && a.key != "" && a.v != []
    ensures Follows(s, Step(maxPayload, s, a), id, k)
  {
    var given, t := Log(s, Given(a.key, a.v)), Step(maxPayload, s, a);
    SinceOne(s, given, id, k, Given(a.key, a.v));
    if a.l1Ok {
      SinceOne(given, t, id, k, Wrote(a.key, a.v));
      FollowsOn(s, given, t, id, k);
    }
  }

  lemma StepFollows(maxPayload: nat, s: State, a: Action, id: nat, k: Key)
    requires OneTierer(s, id, k) && id in s.tasks && Other(a, id, k)
    ensures Follows(s, Step(maxPayload, s, a), id, k)
  {
    if a.Advance? && a.id in s.tasks {
      DoFollows(maxPayload, s, a.id, a.l1Ok, id, k);
    } else if a.DirectSet? && a.key != "" && a.v != [] {
      DirectSetFollows(maxPayload, s, a, id, k);
    } else {
      StartFollows(maxPayload, s, a, id, k);
    }
  }

  lemma StartFollows(maxPayload: nat, s: State, a: Action, id: nat, k: Key)
    requires OneTierer(s, id, k) && id in s.tasks && Other(a, id, k)
    requires (a.Advance? ==> a.id !in s.tasks) && (a.DirectSet? ==> a.key == "" || a.v == [])
    ensures Follows(s, Step(maxPayload, s, a), id, k)
  {
    var t := Step(maxPayload, s, a);
    if a.StartSet? && Storable(maxPayload, a.key, a.v) {
      SinceOne(s, t, id, k, Given(a.key, a.v));
    } else {
      SinceNothing(s, t, id, k);
    }
  }

  /** While task `id` waits, whatever else goes on, L1 holds what the last completed write left. */
  lemma {:induction false} L1FollowsWrites(maxPayload: nat, s: State, acts: seq<Action>, id: nat, k: Key)
    requires OneTierer(s, id, k) && id in s.tasks && Others(acts, id, k)
    ensures Follows(s, Exec(maxPayload, s, acts), id, k)
    decreases acts
  {
    if acts == [] {
      SinceNothing(s, s, id, k);
    } else {
      var t := Step(maxPayload, s, acts[0]);
      StepFollows(maxPayload, s, acts[0], id, k);
      assert forall i :: 0 <= i < |acts[1..]| ==> acts[1..][i] == acts[i + 1];
      L1FollowsWrites(maxPayload, t, acts[1..], id, k);
      FollowsOn(s, t, Exec(maxPayload, t, acts[1..]), id, k);
    }
  }

  // ---------------------------------------------------------------- a promotion that comes late

  lemma LastWriteSince(g: seq<Event>, h: seq<Event>, k: Key)
    requires g <= h
    ensures LastWrite(h, k) == Latest(WritesOf(h[|g|..], k), LastWrite(g, k))
  {
    assert h == g + h[|g|..];
    LastWriteSplits(g, h[|g|..], k);
  }

  lemma TaskWaits(maxPayload: nat, s: State, a: Action, id: nat)
    requires id in s.tasks && Elsewhere(a, id)
    ensures var t := Step(maxPayload, s, a);
            id in t.tasks && t.tasks[id] == s.tasks[id] && s.history <= t.history
  {
    if a.Advance? && a.id in s.tasks {
      DoKeepsTask(maxPayload, s, a.id, s.tasks[a.id].key, s.tasks[a.id].op, a.l1Ok, id);
    }
  }

  lemma {:induction false} TaskStillWaits(maxPayload: nat, s: State, acts: seq<Action>, id: nat)
    requires id in s.tasks && forall i :: 0 <= i < |acts| ==> Elsewhere(acts[i], id)
    ensures var t := Exec(maxPayload, s, acts);
            id in t.tasks && t.tasks[id] == s.tasks[id] && s.history <= t.history
    decreases acts
  {
    if acts != [] {
      TaskWaits(maxPayload, s, acts[0], id);
      assert forall i :: 0 <= i < |acts[1..]| ==> acts[1..][i] == acts[i + 1];
      TaskStillWaits(maxPayload, Step(maxPayload, s, acts[0]), acts[1..], id);
    }
  }

  /** Others run, and then task `id` makes its next call. */
  function Then(maxPayload: nat, s: State, others: seq<Action>, id: nat): State {
    Step(maxPayload, Exec(maxPayload, s, others), Advance(id, true))
  }

  lemma ThenPromoted(maxPayload: nat, s: State, others: seq<Action>, id: nat, k: Key, v: Value)
    requires id in s.tasks && s.tasks[id] == Task(k, Promote(v)) && Storable(maxPayload, k, v)
    requires forall i :: 0 <= i < |others| ==> Elsewhere(others[i], id)
    ensures var t := Then(maxPayload, s, others, id);
            k in t.l0 && t.l0[k] == v && s.history <= t.history
  {
    TaskStillWaits(maxPayload, s, others, id);
  }

  /**
   A Get that found a current value in L1 promotes it after anything else has happened: the next Get is
   fresh exactly when no write of the key has completed in between, or the last one left that same value.
   */
  lemma LatePromotionFreshIff(maxPayload: nat, s: State, id: nat, k: Key, others: seq<Action>, g: nat)
    requires |k| <= maxPayload && k in s.l1 && Storable(maxPayload, k, s.l1[k])
    requires id in s.tasks && s.tasks[id] == Task(k, GetL1) && LastWrite(s.history, k) == Some(s.l1[k])
    requires forall i :: 0 <= i < |others| ==> Elsewhere(others[i], id)
    requires g !in Then(maxPayload, Step(maxPayload, s, Advance(id, true)), others, id).tasks
    ensures var t := Then(maxPayload, Step(maxPayload, s, Advance(id, true)), others, id);
            && s.history <= t.history
            && var since := WritesOf(t.history[|s.history|..], k);
               (LastRead(Exec(maxPayload, t, GetSteps(g, k)).history) == LastWrite(t.history, k) <==>
                since == [] || since[|since| - 1] == Some(s.l1[k]))
  {
    var read := Step(maxPayload, s, Advance(id, true));
    ThenPromoted(maxPayload, read, others, id, k, s.l1[k]);
    var t := Then(maxPayload, read, others, id);
    assert s.history <= read.history;
    LastWriteSince(s.history, t.history, k);
    GetAnswers(maxPayload, t, g, k);
  }

  // ---------------------------------------------------------------- tiering among writers

  lemma ThenCopied(maxPayload: nat, s: State, others: seq<Action>, id: nat, k: Key, v: Value)
    requires OneTierer(s, id, k) && id in s.tasks && s.tasks[id] == Task(k, TierCopy(v)) && Others(others, id, k)
    ensures var t := Then(maxPayload, s, others, id);
            && OneTierer(t, id, k) && id in t.tasks && t.tasks[id] == Task(k, TierVerify)
            && At(t.l1, k) == Some(v) && s.history <= t.history
  {
    L1FollowsWrites(maxPayload, s, others, id, k);
  }

  /** The copy is found, unless a Delete has completed. */
  lemma ThenVerified(maxPayload: nat, s: State, others: seq<Action>, id: nat, k: Key)
    requires OneTierer(s, id, k) && id in s.tasks && s.tasks[id] == Task(k, TierVerify) && Others(others, id, k)
    requires k in Exec(maxPayload, s, others).l1
    ensures var t := Then(maxPayload, s, others, id);
            && OneTierer(t, id, k) && id in t.tasks && t.tasks[id] == Task(k, TierDemote) && s.history <= t.history
            && At(t.l1, k) == Latest(WritesOf(t.history[|s.history|..], k), At(s.l1, k))
  {
    L1FollowsWrites(maxPayload, s, others, id, k);
  }

  lemma ThenDemoted(maxPayload: nat, s: State, others: seq<Action>, id: nat, k: Key)
    requires OneTierer(s, id, k) && id in s.tasks && s.tasks[id] == Task(k, TierDemote) && Others(others, id, k)
    ensures var t := Then(maxPayload, s, others, id);
            && k !in t.l0 && id !in t.tasks && s.history <= t.history
            && At(t.l1, k) == Latest(WritesOf(t.history[|s.history|..], k), At(s.l1, k))
  {
    L1FollowsWrites(maxPayload, s, others, id, k);
  }

  lemma LatestConcat(g: seq<Event>, h: seq<Event>, i: seq<Event>, k: Key, before: Option<Value>)
    requires g <= h <= i
    ensures Latest(WritesOf(i[|g|..], k), before) == Latest(WritesOf(i[|h|..], k), Latest(WritesOf(h[|g|..], k), before))
  {
    assert i[|g|..] == h[|g|..] + i[|h|..];
    WritesOfConcat(h[|g|..], i[|h|..], k);
    LatestOfBoth(WritesOf(h[|g|..], k), WritesOf(i[|h|..], k), before);
  }

  lemma ReadFromL1(maxPayload: nat, s: State, g: nat, k: Key)
    requires k !in s.l0 && g !in s.tasks
    ensures LastRead(Exec(maxPayload, s, GetSteps(g, k)).history) == At(s.l1, k)
  {
    GetAnswers(maxPayload, s, g, k);
  }

  /**
   A tiering pass takes L0's current value, and anything else happens before it copies, verifies and demotes.
   The next Get is fresh exactly when a write of the key completed after the copy, or none did before it, or
   the last of those left the value copied.
   */
  lemma TieringAmongWritersFreshIff(maxPayload: nat, s: State, id: nat, k: Key,
                                    m1: seq<Action>, m2: seq<Action>, m3: seq<Action>, g: nat)
    requires id !in s.tasks && k in s.l0 && LastWrite(s.history, k) == Some(s.l0[k]) && OneTierer(s, id, k)
    requires Others(m1, id, k) && Others(m2, id, k) && Others(m3, id, k)
    requires var copied := Then(maxPayload, Step(maxPayload, s, StartTier(id, k)), m1, id);
             && k in Exec(maxPayload, copied, m2).l1
             && g !in Then(maxPayload, Then(maxPayload, copied, m2, id), m3, id).tasks
    ensures var copied := Then(maxPayload, Step(maxPayload, s, StartTier(id, k)), m1, id);
            var t := Then(maxPayload, Then(maxPayload, copied, m2, id), m3, id);
            && s.history <= copied.history <= t.history
            && var before, after := WritesOf(copied.history[|s.history|..], k), WritesOf(t.history[|copied.history|..], k);
               (LastRead(Exec(maxPayload, t, GetSteps(g, k)).history) == LastWrite(t.history, k) <==>
                after != [] || before == [] || before[|before| - 1] == Some(s.l0[k]))
  {
    var v := s.l0[k];
    var start := Step(maxPayload, s, StartTier(id, k));
    ThenCopied(maxPayload, start, m1, id, k, v);
    var copied := Then(maxPayload, start, m1, id);
    ThenVerified(maxPayload, copied, m2, id, k);
    var verified := Then(maxPayload, copied, m2, id);
    ThenDemoted(maxPayload, verified, m3, id, k);
    var t := Then(maxPayload, verified, m3, id);
    LatestConcat(copied.history, verified.history, t.history, k, Some(v));
    LastWriteSince(copied.history, t.history, k);
    LastWriteSince(s.history, copied.history, k);
    ReadFromL1(maxPayload, t, g, k);
  }
}
