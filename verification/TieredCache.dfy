/**
 The tiered cache's operations as the sequential code they are (pkg/tieredcache/tieredcache.go:360-494,
 625-666), over the two tiers' maps, and each tied to its steps in TierProtocol.
 */
module TieredCache {
  import opened Bytes
  import opened Payloads
  import opened TierProtocol
  import opened TierFreshness

  /** An entry that EvictCandidates took from L0, and what becomes of it. */
  datatype Candidate = Candidate(key: Key, v: Value)

  datatype Outcome = CopyFails | VerifyFails | Moves

  /** The protocol state of two tiers with nothing under way. */
  function Quiet(l0: map<Key, Value>, l1: map<Key, Value>): State {
    State(l0, l1, map[], [])
  }

  lemma SetIsThreeSteps(maxPayload: nat, l0: map<Key, Value>, l1: map<Key, Value>, k: Key, v: Value, l1Ok: bool)
    requires Storable(maxPayload, k, v)
    ensures var t := Exec(maxPayload, Quiet(l0, l1), [StartSet(0, k, v), Advance(0, l1Ok), Advance(0, l1Ok)]);
            t.l0 == l0[k := v] && t.l1 == (if l1Ok then l1[k := v] else l1) && t.tasks == map[]
  {
    ExecThree(maxPayload, Quiet(l0, l1), StartSet(0, k, v), Advance(0, l1Ok), Advance(0, l1Ok));
    var s := Step(maxPayload, Quiet(l0, l1), StartSet(0, k, v));
    assert s.tasks[0] == Task(k, SetL0(v));
    assert Step(maxPayload, s, Advance(0, l1Ok)).tasks[0] == Task(k, SetL1(v));
  }

  lemma DeleteIsThreeSteps(maxPayload: nat, l0: map<Key, Value>, l1: map<Key, Value>, k: Key, l1Ok: bool)
    ensures var t := Exec(maxPayload, Quiet(l0, l1), [StartDelete(0, k), Advance(0, l1Ok), Advance(0, l1Ok)]);
            t.l0 == l0 - {k} && t.l1 == (if l1Ok then l1 - {k} else l1) && t.tasks == map[]
  {
    ExecThree(maxPayload, Quiet(l0, l1), StartDelete(0, k), Advance(0, l1Ok), Advance(0, l1Ok));
    var s := Step(maxPayload, Quiet(l0, l1), StartDelete(0, k));
    assert s.tasks[0] == Task(k, DelL0);
    assert Step(maxPayload, s, Advance(0, l1Ok)).tasks[0] == Task(k, DelL1);
  }

  /** The steps of one candidate's tiering, by what becomes of it; steps of an ended task do nothing. */
  function TierOne(c: Candidate, o: Outcome): seq<Action> {
    [StartTier(0, c.key)] + [Advance(0, !o.CopyFails?), Advance(0, o.Moves?), Advance(0, true)]
  }

  function TierPass(candidates: seq<Candidate>, outcomes: seq<Outcome>): seq<Action>
    requires |outcomes| == |candidates|
  {
    if candidates == [] then []
    else
      var n := |candidates| - 1;
      TierPass(candidates[..n], outcomes[..n]) + TierOne(candidates[n], outcomes[n])
  }

  lemma TierOneSteps(maxPayload: nat, l0: map<Key, Value>, l1: map<Key, Value>, c: Candidate, o: Outcome)
    requires c.key in l0 && l0[c.key] == c.v
    ensures Exec(maxPayload, Quiet(l0, l1), TierOne(c, o))
            == Quiet(if o.Moves? then l0 - {c.key} else l0, if o.CopyFails? then l1 else l1[c.key := c.v])
  {
    var copy, verify, demote := Advance(0, !o.CopyFails?), Advance(0, o.Moves?), Advance(0, true);
    var s := State(l0, l1, map[0 := Task(c.key, TierCopy(c.v))], []);
    ExecConcat(maxPayload, Quiet(l0, l1), [StartTier(0, c.key)], [copy, verify, demote]);
    ExecOne(maxPayload, Quiet(l0, l1), StartTier(0, c.key));
    ExecThree(maxPayload, s, copy, verify, demote);
    TierEnd(maxPayload, s, c.key, c.v, o);
  }

  lemma TierEnd(maxPayload: nat, s: State, k: Key, v: Value, o: Outcome)
    requires s.tasks == map[0 := Task(k, TierCopy(v))]
    ensures Step(maxPayload, Step(maxPayload, Step(maxPayload, s, Advance(0, !o.CopyFails?)), Advance(0, o.Moves?)), Advance(0, true))
            == s.(l0 := if o.Moves? then s.l0 - {k} else s.l0, l1 := if o.CopyFails? then s.l1 else s.l1[k := v], tasks := map[])
  {
    var t := Step(maxPayload, s, Advance(0, !o.CopyFails?));
    assert t.tasks == if o.CopyFails? then map[] else map[0 := Task(k, TierVerify)];
    var u := Step(maxPayload, t, Advance(0, o.Moves?));
    assert u.tasks == if o.Moves? then map[0 := Task(k, TierDemote)] else map[];
  }

  lemma TierPassSnoc(maxPayload: nat, s: State, candidates: seq<Candidate>, outcomes: seq<Outcome>, i: nat)
    requires |outcomes| == |candidates| && i < |candidates|
    ensures Exec(maxPayload, s, TierPass(candidates[..i + 1], outcomes[..i + 1]))
            == Exec(maxPayload, Exec(maxPayload, s, TierPass(candidates[..i], outcomes[..i])), TierOne(candidates[i], outcomes[i]))
  {
    assert candidates[..i + 1][..i] == candidates[..i] && outcomes[..i + 1][..i] == outcomes[..i];
    ExecConcat(maxPayload, s, TierPass(candidates[..i], outcomes[..i]), TierOne(candidates[i], outcomes[i]));
  }

  /** The keys of the candidates with the given outcome. */
  function Those(candidates: seq<Candidate>, outcomes: seq<Outcome>, o: Outcome): set<Key>
    requires |outcomes| == |candidates|
  {
    set i | 0 <= i < |candidates| && outcomes[i] == o :: candidates[i].key
  }

  function Copied(candidates: seq<Candidate>, outcomes: seq<Outcome>): set<Key>
    requires |outcomes| == |candidates|
  {
    Those(candidates, outcomes, Moves) + Those(candidates, outcomes, VerifyFails)
  }

  lemma ThoseSnoc(candidates: seq<Candidate>, outcomes: seq<Outcome>, i: nat, o: Outcome)
    requires |outcomes| == |candidates| && i < |outcomes|
    ensures Those(candidates[..i + 1], outcomes[..i + 1], o) ==
            Those(candidates[..i], outcomes[..i], o) + if outcomes[i] == o then {candidates[i].key} else {}
  {
    var a, b := Those(candidates[..i + 1], outcomes[..i + 1], o), Those(candidates[..i], outcomes[..i], o);
    forall k | k in b ensures k in a {
      var j :| 0 <= j < i && outcomes[..i][j] == o && candidates[..i][j].key == k;
      assert outcomes[..i + 1][j] == o && candidates[..i + 1][j].key == k;
    }
    forall k | k in a ensures k in b || (outcomes[i] == o && k == candidates[i].key) {
      var j :| 0 <= j < i + 1 && outcomes[..i + 1][j] == o && candidates[..i + 1][j].key == k;
      if j < i {
        assert outcomes[..i][j] == o && candidates[..i][j].key == k;
      }
    }
    if outcomes[i] == o {
      assert outcomes[..i + 1][i] == o && candidates[..i + 1][i].key == candidates[i].key;
    }
  }

  /** L0 and L1 after a pass: what moved has left L0, what was copied is in L1, all else is as before. */
  ghost predicate Passed(l0: map<Key, Value>, l1: map<Key, Value>, moved: set<Key>, copied: set<Key>, t: State) {
    && t.l0 == l0 - moved && moved <= copied <= l0.Keys
    && t.l1.Keys == l1.Keys + copied
    && forall k :: k in t.l1 ==> t.l1[k] == if k in copied then l0[k] else l1[k]
  }

  ghost predicate TakenFrom(l0: map<Key, Value>, candidates: seq<Candidate>) {
    && (forall i :: 0 <= i < |candidates| ==> candidates[i].key in l0 && l0[candidates[i].key] == candidates[i].v)
    && forall i, j :: 0 <= i < j < |candidates| ==> candidates[i].key != candidates[j].key
  }

  lemma {:induction false} TierPassMoves(maxPayload: nat, l0: map<Key, Value>, l1: map<Key, Value>,
                                         candidates: seq<Candidate>, outcomes: seq<Outcome>)
    requires |outcomes| == |candidates| && TakenFrom(l0, candidates)
    ensures var t := Exec(maxPayload, Quiet(l0, l1), TierPass(candidates, outcomes));
            && t == Quiet(t.l0, t.l1)
            && Passed(l0, l1, Those(candidates, outcomes, Moves), Copied(candidates, outcomes), t)
  {
    if candidates == [] {
      assert Those(candidates, outcomes, Moves) == {} && Copied(candidates, outcomes) == {};
    } else {
      var n := |candidates| - 1;
      var c, o := candidates[n], outcomes[n];
      assert candidates[..n + 1] == candidates && outcomes[..n + 1] == outcomes;
      NotYetMoved(l0, candidates, outcomes, n);
      TierPassMoves(maxPayload, l0, l1, candidates[..n], outcomes[..n]);
      var s := Exec(maxPayload, Quiet(l0, l1), TierPass(candidates[..n], outcomes[..n]));
      TierPassSnoc(maxPayload, Quiet(l0, l1), candidates, outcomes, n);
      ThoseSnoc(candidates, outcomes, n, Moves);
      var moved, copied := Those(candidates[..n], outcomes[..n], Moves), Copied(candidates[..n], outcomes[..n]);
      TierOneSteps(maxPayload, s.l0, s.l1, c, o);
      PassedOne(l0, l1, moved, copied, s, c, o);
      CopiedSnoc(candidates, outcomes, n);
    }
  }

  lemma NotYetMoved(l0: map<Key, Value>, candidates: seq<Candidate>, outcomes: seq<Outcome>, n: nat)
    requires |outcomes| == |candidates| && TakenFrom(l0, candidates) && n < |candidates|
    ensures TakenFrom(l0, candidates[..n]) && candidates[n].key in l0 - Those(candidates[..n], outcomes[..n], Moves)
  {
  }

  lemma CopiedSnoc(candidates: seq<Candidate>, outcomes: seq<Outcome>, i: nat)
    requires |outcomes| == |candidates| && i < |outcomes|
    ensures Copied(candidates[..i + 1], outcomes[..i + 1]) ==
            Copied(candidates[..i], outcomes[..i]) + if outcomes[i].CopyFails? then {} else {candidates[i].key}
  {
    ThoseSnoc(candidates, outcomes, i, Moves);
    ThoseSnoc(candidates, outcomes, i, VerifyFails);
  }

  lemma PassedOne(l0: map<Key, Value>, l1: map<Key, Value>, moved: set<Key>, copied: set<Key>, s: State, c: Candidate, o: Outcome)
    requires Passed(l0, l1, moved, copied, s) && c.key in l0 && l0[c.key] == c.v
    ensures Passed(l0, l1, moved + (if o.Moves? then {c.key} else {}), copied + (if o.CopyFails? then {} else {c.key}),
                   Quiet(if o.Moves? then s.l0 - {c.key} else s.l0, if o.CopyFails? then s.l1 else s.l1[c.key := c.v]))
  {
  }

  lemma PassedReads(maxPayload: nat, l0: map<Key, Value>, l1: map<Key, Value>, moved: set<Key>, copied: set<Key>, t: State, k: Key)
    requires Passed(l0, l1, moved, copied, t)
    ensures ReadNow(maxPayload, t, k) == if k in copied then Some(l0[k]) else ReadNow(maxPayload, Quiet(l0, l1), k)
  {
  }

  class Tiers {
    const maxPayload: nat
    var l0: map<Key, Value>
    var l1: map<Key, Value>

    /** L0 first, then L1, whose hit is to be promoted; no L2 sink is ever registered. */
    method Get(k: Key) returns (r: Option<Value>, promote: Option<Value>)
      ensures var t := Exec(maxPayload, Quiet(l0, l1), GetSteps(0, k));
              && t.history == [Got(k, r)]
              && t.tasks == match promote case None => map[] case Some(v) => map[0 := Task(k, Promote(v))]
      ensures r == ReadNow(maxPayload, Quiet(l0, l1), k)
      ensures promote.Some? ==> r == promote && k in l1 && !(k in l0 && |k| <= maxPayload)
      ensures r.Some? && promote.None? ==> k in l0
    {
      GetAnswers(maxPayload, Quiet(l0, l1), 0, k);
      if k in l0 && |k| <= maxPayload {
        return Some(l0[k]), None;
      }
      if k in l1 {
        return Some(l1[k]), Some(l1[k]);
      }
      return None, None;
    }

    /** An L1 failure is only logged: the call succeeds when L0 took the value. */
    method Set(k: Key, v: Value, l1Ok: bool) returns (ok: bool)
      modifies this
      ensures ok == Storable(maxPayload, k, v)
      ensures !ok ==> l0 == old(l0) && l1 == old(l1)
      ensures ok ==>
                var t := Exec(maxPayload, Quiet(old(l0), old(l1)), [StartSet(0, k, v), Advance(0, l1Ok), Advance(0, l1Ok)]);
                l0 == t.l0 && l1 == t.l1
      ensures ok && |k| <= maxPayload ==> ReadNow(maxPayload, Quiet(l0, l1), k) == Some(v)
    {
      if |v| > maxPayload {
        return false;
      }
      ok := k != "" && v != [];
      if ok {
        l0 := l0[k := v];
      }
      if k != "" && v != [] && l1Ok {
        l1 := l1[k := v];
      }
      if ok {
        SetIsThreeSteps(maxPayload, old(l0), old(l1), k, v, l1Ok);
      }
    }

    /** Both tiers are tried; the result is L1's error if there is one, else L0's. */
    method Delete(k: Key, l1Ok: bool) returns (ok: bool)
      requires "" !in l0 && "" !in l1
      modifies this
      ensures ok == (k in old(l0) && l1Ok && k != "")
      ensures var t := Exec(maxPayload, Quiet(old(l0), old(l1)), [StartDelete(0, k), Advance(0, l1Ok), Advance(0, l1Ok)]);
              l0 == t.l0 && l1 == t.l1
      ensures l1Ok ==> ReadNow(maxPayload, Quiet(l0, l1), k) == None
    {
      DeleteIsThreeSteps(maxPayload, l0, l1, k, l1Ok);
      ok := true;
      if k == "" || k !in l0 {
        ok := false;
      }
      l0 := l0 - {k};
      if k == "" || !l1Ok {
        ok := false;
      } else {
        l1 := l1 - {k};
      }
    }

    /**
     One tiering pass over candidates taken from L0, whose keys a map's iteration makes distinct.  It has
     the effect of the protocol's steps: exactly those copied and verified leave L0; every copied key
     reads as its L0 value, and every other key reads as before.
     */
    method PerformTiering(usageAtThreshold: bool, candidates: seq<Candidate>, outcomes: seq<Outcome>)
      requires |outcomes| == |candidates|
      requires TakenFrom(l0, candidates)
      modifies this
      ensures !usageAtThreshold ==> l0 == old(l0) && l1 == old(l1)
      ensures usageAtThreshold ==>
                && Quiet(l0, l1) == Exec(maxPayload, Quiet(old(l0), old(l1)), TierPass(candidates, outcomes))
                && Passed(old(l0), old(l1), Those(candidates, outcomes, Moves), Copied(candidates, outcomes), Quiet(l0, l1))
      ensures usageAtThreshold ==>
                forall k :: ReadNow(maxPayload, Quiet(l0, l1), k) ==
                  if k in Copied(candidates, outcomes) then Some(old(l0)[k])
                  else ReadNow(maxPayload, Quiet(old(l0), old(l1)), k)
    {
      if !usageAtThreshold {
        return;
      }
      for i := 0 to |candidates|
        invariant Exec(maxPayload, Quiet(old(l0), old(l1)), TierPass(candidates[..i], outcomes[..i])) == Quiet(l0, l1)
        invariant forall j :: i <= j < |candidates| ==>
                    candidates[j].key in l0 && l0[candidates[j].key] == candidates[j].v
      {
        var c := candidates[i];
        TierPassSnoc(maxPayload, Quiet(old(l0), old(l1)), candidates, outcomes, i);
        TierOneSteps(maxPayload, l0, l1, c, outcomes[i]);
        if outcomes[i].CopyFails? {
          continue;
        }
        l1 := l1[c.key := c.v];
        var verified := c.key in l1 && !outcomes[i].VerifyFails?;
        if !verified {
          continue;
        }
        l0 := l0 - {c.key};
      }
      assert candidates[..|candidates|] == candidates && outcomes[..|outcomes|] == outcomes;
      TierPassMoves(maxPayload, old(l0), old(l1), candidates, outcomes);
      forall k ensures ReadNow(maxPayload, Quiet(l0, l1), k) ==
        if k in Copied(candidates, outcomes) then Some(old(l0)[k]) else ReadNow(maxPayload, Quiet(old(l0), old(l1)), k)
      {
        PassedReads(maxPayload, old(l0), old(l1), Those(candidates, outcomes, Moves), Copied(candidates, outcomes), Quiet(l0, l1), k);
      }
    }
  }
}
