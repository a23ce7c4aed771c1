/**
 What every interleaving of the tier protocol keeps: values come from Sets of their key, a key that
 L1 holds stays readable until it is deleted, and tiering makes no key unreadable.
 */
module TierSafety {
  import opened Bytes
  import opened TierProtocol

  // ---------------------------------------------------------------- provenance

  ghost predicate WasGiven(h: seq<Event>, k: Key, v: Value) {
    Given(k, v) in h
  }

  /** The value a task carries. */
  function Carried(op: Op): Option<Value> {
    match op
    case Promote(v) => Some(v)
    case SetL0(v) => Some(v)
    case SetL1(v) => Some(v)
    case TierCopy(v) => Some(v)
    case _ => None
  }

  ghost predicate GotGiven(h: seq<Event>) {
    forall i :: 0 <= i < |h| && h[i].Got? && h[i].r.Some? ==> WasGiven(h[..i], h[i].key, h[i].r.value)
  }

  ghost predicate HeldGiven(s: State, h: seq<Event>) {
    && (forall k :: k in s.l0 ==> WasGiven(h, k, s.l0[k]))
    && (forall k :: k in s.l1 ==> WasGiven(h, k, s.l1[k]))
  }

  ghost predicate CarriedGiven(s: State, h: seq<Event>) {
    forall id :: id in s.tasks && Carried(s.tasks[id].op).Some? ==>
      WasGiven(h, s.tasks[id].key, Carried(s.tasks[id].op).value)
  }

  /** Whatever the tiers hold, tasks carry or Gets returned was given to an earlier Set of its key. */
  ghost predicate Provenance(s: State) {
    HeldGiven(s, s.history) && CarriedGiven(s, s.history) && GotGiven(s.history)
  }

  lemma LogKeepsGotGiven(h: seq<Event>, e: Event)
    requires GotGiven(h)
    requires e.Got? && e.r.Some? ==> WasGiven(h, e.key, e.r.value)
    ensures GotGiven(h + [e])
    ensures forall k, v :: WasGiven(h, k, v) ==> WasGiven(h + [e], k, v)
  {
    var h' := h + [e];
    forall i | 0 <= i < |h'| && h'[i].Got? && h'[i].r.Some? ensures WasGiven(h'[..i], h'[i].key, h'[i].r.value) {
      assert h'[..i] == h[..i];
    }
  }

  lemma DoKeepsHeld(maxPayload: nat, s: State, id: nat, l1Ok: bool)
    requires HeldGiven(s, s.history) && CarriedGiven(s, s.history) && id in s.tasks
    ensures HeldGiven(Do(maxPayload, s, id, s.tasks[id].key, s.tasks[id].op, l1Ok), s.history)
  {
  }

  lemma DoKeepsCarried(maxPayload: nat, s: State, id: nat, l1Ok: bool)
    requires HeldGiven(s, s.history) && CarriedGiven(s, s.history) && id in s.tasks
    ensures CarriedGiven(Do(maxPayload, s, id, s.tasks[id].key, s.tasks[id].op, l1Ok), s.history)
  {
    var t := Do(maxPayload, s, id, s.tasks[id].key, s.tasks[id].op, l1Ok);
    forall i | i in t.tasks && Carried(t.tasks[i].op).Some?
      ensures WasGiven(s.history, t.tasks[i].key, Carried(t.tasks[i].op).value)
    {
      assert i in s.tasks;
    }
  }

  /** A step logs at most one event, and a read it logs is of a given value. */
  lemma DoKeepsGot(maxPayload: nat, s: State, id: nat, l1Ok: bool)
    requires Provenance(s) && id in s.tasks
    ensures var h := Do(maxPayload, s, id, s.tasks[id].key, s.tasks[id].op, l1Ok).history;
            GotGiven(h) && forall k, v :: WasGiven(s.history, k, v) ==> WasGiven(h, k, v)
  {
    var k := s.tasks[id].key;
    match s.tasks[id].op
    case GetL0 => if k in s.l0 { LogKeepsGotGiven(s.history, Got(k, Some(s.l0[k]))); }
    case GetL1 => LogKeepsGotGiven(s.history, Got(k, if k in s.l1 then Some(s.l1[k]) else None));
    case SetL1(v) => LogKeepsGotGiven(s.history, Wrote(k, v));
    case DelL1 => LogKeepsGotGiven(s.history, Removed(k));
    case _ =>
  }

  lemma DoKeepsProvenance(maxPayload: nat, s: State, id: nat, l1Ok: bool)
    requires Provenance(s) && id in s.tasks
    ensures Provenance(Do(maxPayload, s, id, s.tasks[id].key, s.tasks[id].op, l1Ok))
  {
    DoKeepsHeld(maxPayload, s, id, l1Ok);
    DoKeepsCarried(maxPayload, s, id, l1Ok);
    DoKeepsGot(maxPayload, s, id, l1Ok);
  }

  lemma GivingKeepsProvenance(s: State, k: Key, v: Value)
    requires Provenance(s)
    ensures Provenance(Log(s, Given(k, v))) && WasGiven(s.history + [Given(k, v)], k, v)
  {
    LogKeepsGotGiven(s.history, Given(k, v));
    assert (s.history + [Given(k, v)])[|s.history|] == Given(k, v);
  }

  lemma DirectSetKeepsProvenance(maxPayload: nat, s: State, k: Key, v: Value, l1Ok: bool)
    requires Provenance(s)
    ensures Provenance(Step(maxPayload, s, DirectSet(k, v, l1Ok)))
  {
    GivingKeepsProvenance(s, k, v);
    LogKeepsGotGiven(s.history + [Given(k, v)], Wrote(k, v));
  }

  lemma StartSetKeepsProvenance(maxPayload: nat, s: State, id: nat, k: Key, v: Value)
    requires Provenance(s)
    ensures Provenance(Step(maxPayload, s, StartSet(id, k, v)))
  {
    GivingKeepsProvenance(s, k, v);
  }

  lemma StepKeepsProvenance(maxPayload: nat, s: State, a: Action)
    requires Provenance(s)
    ensures Provenance(Step(maxPayload, s, a))
  {
    match a
    case Advance(id, l1Ok) => if id in s.tasks { DoKeepsProvenance(maxPayload, s, id, l1Ok); }
    case StartSet(id, k, v) => StartSetKeepsProvenance(maxPayload, s, id, k, v);
    case DirectSet(k, v, l1Ok) => DirectSetKeepsProvenance(maxPayload, s, k, v, l1Ok);
    case _ =>
  }

  lemma {:induction false} RunKeepsProvenance(maxPayload: nat, s: State, acts: seq<Action>)
    requires Provenance(s)
    ensures Provenance(Exec(maxPayload, s, acts))
    decreases acts
  {
    if acts != [] {
      StepKeepsProvenance(maxPayload, s, acts[0]);
      RunKeepsProvenance(maxPayload, Step(maxPayload, s, acts[0]), acts[1..]);
    }
  }

  /** In every run, any value a Get returns under a key was given to an earlier Set of that key. */
  lemma ReadsWereWritten(maxPayload: nat, acts: seq<Action>, i: nat)
    requires i < |Exec(maxPayload, INITIAL, acts).history|
    ensures var h := Exec(maxPayload, INITIAL, acts).history;
            h[i].Got? && h[i].r.Some? ==> Given(h[i].key, h[i].r.value) in h[..i]
  {
    RunKeepsProvenance(maxPayload, INITIAL, acts);
  }

  // ---------------------------------------------------------------- availability

  ghost predicate Deleting(s: State, k: Key) {
    exists id :: id in s.tasks && s.tasks[id].key == k && (s.tasks[id].op.DelL0? || s.tasks[id].op.DelL1?)
  }

  predicate Deletes(a: Action, k: Key) {
    a.StartDelete? && a.key == k
  }

  ghost predicate NoDeletes(acts: seq<Action>, k: Key) {
    forall i :: 0 <= i < |acts| ==> !Deletes(acts[i], k)
  }

  /** New Gets of `k` in the longer history found something. */
  ghost predicate FoundSince(h: seq<Event>, h': seq<Event>, k: Key) {
    h <= h' && forall i :: |h| <= i < |h'| && h'[i].Got? && h'[i].key == k ==> h'[i].r.Some?
  }

  lemma DoKeepsL1(maxPayload: nat, s: State, id: nat, l1Ok: bool, k: Key)
    requires k in s.l1 && !Deleting(s, k) && id in s.tasks
    ensures var t := Do(maxPayload, s, id, s.tasks[id].key, s.tasks[id].op, l1Ok);
            k in t.l1 && FoundSince(s.history, t.history, k)
  {
    var task := s.tasks[id];
    assert task.key == k ==> !task.op.DelL0? && !task.op.DelL1?;
  }

  lemma DoKeepsNotDeleting(maxPayload: nat, s: State, id: nat, l1Ok: bool, k: Key)
    requires !Deleting(s, k) && id in s.tasks
    ensures !Deleting(Do(maxPayload, s, id, s.tasks[id].key, s.tasks[id].op, l1Ok), k)
  {
    var t := Do(maxPayload, s, id, s.tasks[id].key, s.tasks[id].op, l1Ok);
    assert s.tasks[id].key == k ==> !s.tasks[id].op.DelL0? && !s.tasks[id].op.DelL1?;
    forall i | i in t.tasks && t.tasks[i].key == k ensures !t.tasks[i].op.DelL0? && !t.tasks[i].op.DelL1? {
      assert i in s.tasks;
    }
  }

  lemma StepKeepsNotDeleting(maxPayload: nat, s: State, a: Action, k: Key)
    requires !Deleting(s, k) && !Deletes(a, k)
    ensures !Deleting(Step(maxPayload, s, a), k)
  {
    if a.Advance? && a.id in s.tasks {
      DoKeepsNotDeleting(maxPayload, s, a.id, a.l1Ok, k);
    }
  }

  lemma StepKeepsL1(maxPayload: nat, s: State, a: Action, k: Key)
    requires k in s.l1 && !Deleting(s, k) && !Deletes(a, k)
    ensures var t := Step(maxPayload, s, a); k in t.l1 && FoundSince(s.history, t.history, k)
  {
    if a.Advance? && a.id in s.tasks {
      DoKeepsL1(maxPayload, s, a.id, a.l1Ok, k);
    }
  }

  /**
   From any state in which L1 holds `k` and no Delete of it is under way, no sequence of steps without
   a Delete of `k` makes a Get of `k` miss: not evictions, tiering, failing writes or crashes.
   */
  lemma {:induction false} L1KeysStayReadable(maxPayload: nat, s: State, acts: seq<Action>, k: Key)
    requires k in s.l1 && !Deleting(s, k) && NoDeletes(acts, k)
    ensures k in Exec(maxPayload, s, acts).l1
    ensures FoundSince(s.history, Exec(maxPayload, s, acts).history, k)
    decreases acts
  {
    if acts != [] {
      var t := Step(maxPayload, s, acts[0]);
      StepKeepsL1(maxPayload, s, acts[0], k);
      StepKeepsNotDeleting(maxPayload, s, acts[0], k);
      assert forall i :: 0 <= i < |acts[1..]| ==> acts[1..][i] == acts[i + 1];
      L1KeysStayReadable(maxPayload, t, acts[1..], k);
      FoundTransitive(s.history, t.history, Exec(maxPayload, t, acts[1..]).history, k);
    }
  }

  lemma FoundTransitive(a: seq<Event>, b: seq<Event>, c: seq<Event>, k: Key)
    requires FoundSince(a, b, k) && FoundSince(b, c, k)
    ensures FoundSince(a, c, k)
  {
    forall i | |a| <= i < |c| && c[i].Got? && c[i].key == k ensures c[i].r.Some? {
      if i < |b| {
        assert b[i] == c[i];
      }
    }
  }

  // ---------------------------------------------------------------- tiering keeps keys readable

  predicate Readable(maxPayload: nat, s: State, k: Key) {
    (k in s.l0 && |k| <= maxPayload) || k in s.l1
  }

  predicate DropsFromL0(a: Action, k: Key) {
    a == Evict(k) || a.Crash?
  }

  /** A task about to demote `k` has seen it copied. */
  ghost predicate DemotesAreCopied(s: State, k: Key) {
    forall id :: id in s.tasks && s.tasks[id] == Task(k, TierDemote) ==> k in s.l1
  }

  lemma DoKeepsCopied(maxPayload: nat, s: State, id: nat, l1Ok: bool, k: Key)
    requires !Deleting(s, k) && DemotesAreCopied(s, k) && id in s.tasks
    ensures DemotesAreCopied(Do(maxPayload, s, id, s.tasks[id].key, s.tasks[id].op, l1Ok), k)
  {
    var t := Do(maxPayload, s, id, s.tasks[id].key, s.tasks[id].op, l1Ok);
    assert s.tasks[id].key == k ==> !s.tasks[id].op.DelL0? && !s.tasks[id].op.DelL1?;
    forall i | i in t.tasks && t.tasks[i] == Task(k, TierDemote) ensures k in t.l1 {
      assert i in s.tasks;
      if i != id {
        assert k in s.l1;
      }
    }
  }

  lemma DoKeepsReadable(maxPayload: nat, s: State, id: nat, l1Ok: bool, k: Key)
    requires !Deleting(s, k) && DemotesAreCopied(s, k) && id in s.tasks && Readable(maxPayload, s, k)
    ensures Readable(maxPayload, Do(maxPayload, s, id, s.tasks[id].key, s.tasks[id].op, l1Ok), k)
  {
    assert s.tasks[id].key == k ==> !s.tasks[id].op.DelL0? && !s.tasks[id].op.DelL1?;
    assert s.tasks[id] == Task(k, TierDemote) ==> k in s.l1;
  }

  lemma StepKeepsReadable(maxPayload: nat, s: State, a: Action, k: Key)
    requires !Deleting(s, k) && DemotesAreCopied(s, k) && !Deletes(a, k)
    ensures DemotesAreCopied(Step(maxPayload, s, a), k)
    ensures Readable(maxPayload, s, k) && !DropsFromL0(a, k) ==> Readable(maxPayload, Step(maxPayload, s, a), k)
  {
    if a.Advance? && a.id in s.tasks {
      DoKeepsCopied(maxPayload, s, a.id, a.l1Ok, k);
      if Readable(maxPayload, s, k) {
        DoKeepsReadable(maxPayload, s, a.id, a.l1Ok, k);
      }
    }
  }

  lemma {:induction false} RunKeepsReadable(maxPayload: nat, s: State, acts: seq<Action>, k: Key)
    requires !Deleting(s, k) && DemotesAreCopied(s, k) && NoDeletes(acts, k)
    ensures var t := Exec(maxPayload, s, acts); !Deleting(t, k) && DemotesAreCopied(t, k)
    ensures Readable(maxPayload, s, k) && (forall i :: 0 <= i < |acts| ==> !DropsFromL0(acts[i], k)) ==>
              Readable(maxPayload, Exec(maxPayload, s, acts), k)
    decreases acts
  {
    if acts != [] {
      StepKeepsReadable(maxPayload, s, acts[0], k);
      StepKeepsNotDeleting(maxPayload, s, acts[0], k);
      assert forall i :: 0 <= i < |acts[1..]| ==> acts[1..][i] == acts[i + 1];
      RunKeepsReadable(maxPayload, Step(maxPayload, s, acts[0]), acts[1..], k);
    }
  }

  /**
   Copy, verify, demote: in every run without a Delete of `k`, a key readable at some point is readable
   at every later one up to an L0 eviction or crash, even when every L1 write may fail.  What it reads
   as is another matter: see TierFreshness.TieringLosesSet.
   */
  lemma TieringKeepsKeysReadable(maxPayload: nat, before: seq<Action>, after: seq<Action>, k: Key)
    requires NoDeletes(before, k) && NoDeletes(after, k)
    requires forall i :: 0 <= i < |after| ==> !DropsFromL0(after[i], k)
    requires Readable(maxPayload, Exec(maxPayload, INITIAL, before), k)
    ensures Readable(maxPayload, Exec(maxPayload, INITIAL, before + after), k)
  {
    RunKeepsReadable(maxPayload, INITIAL, before, k);
    RunKeepsReadable(maxPayload, Exec(maxPayload, INITIAL, before), after, k);
    ExecConcat(maxPayload, INITIAL, before, after);
  }
}
